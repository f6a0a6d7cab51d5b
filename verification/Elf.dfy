/**
 The ELF loader.
 */
module Elf {
  import opened Machine
  import opened Counting
  import opened Pmm
  import opened PagingSpec
  import opened AddressSpace
  import opened Spaces
  import opened ProcessBuild
  import opened Paging
  import opened Scheduler
  import opened CString
  import opened Argv
  import opened KernelSteps
  import opened TaskSpec
  import opened Tasks
  import opened ElfSpec
  import opened ElfImage

  /** Zeroes a page and copies the file bytes that fall on it. */
  method CopyPage(file: seq<u8>, p: Phdr, q: nat) returns (b: seq<u8>)
    requires p.offset + p.filesz <= |file|
    ensures b == PageBytes(file, p, q)
  {
    b := Zeros(4096);
    var pageStart, pageEnd := 4096 * q, 4096 * q + 4096;
    var fileStart, fileEnd := p.vaddr as int, Wrap32(p.vaddr + p.filesz);
    var copyStart := if fileStart > pageStart then fileStart else pageStart;
    var copyEnd := if fileEnd < pageEnd then fileEnd else pageEnd;
    if copyStart < copyEnd {
      var dst, src, len := copyStart - pageStart, p.offset + (copyStart - p.vaddr), copyEnd - copyStart;
      b := b[..dst] + file[src..src + len] + b[dst + len..];
    }
    assert forall o :: 0 <= o < 4096 ==> b[o] == PageBytes(file, p, q)[o];
  }

  /** Loads the pages of segment `n`. */
  method LoadPages(mmu: Mmu, file: seq<u8>, p: Phdr, d: nat, ghost j: Job, ghost n: nat, ghost hole0: int, ghost leak0: set<nat>,
                   ghost t0: Tally)
    returns (ok: bool, ghost hole: int, ghost leak: set<nat>, ghost t: Tally)
    requires mmu.Ready() && j.file == file && j.d == d && InSegment(j, n) && p == j.ps[n]
    requires Loading(j, n, FirstPage(p), hole0, leak0, t0, mmu.S())
    modifies mmu, mmu.pmm, mmu.pmm.bitmap
    ensures mmu.Ready() && t == TakePages(t0, FirstPage(p), EndPage(p)) && (ok <==> !t.failed)
    ensures ok ==> Loading(j, n, if FirstPage(p) < EndPage(p) then EndPage(p) else FirstPage(p), hole, leak, t, mmu.S())
    ensures !ok ==> Building(j.s0, j.dirs, mmu.S(), j.d, leak) && |leak| == Leaks(t)
  {
    hide Loading, Building, InSegment, FrameAllocator.Valid, TakePage, FirstPage, EndPage, Leaks;
    hole, leak, t := hole0, leak0, t0;
    var q := FirstPage(p);
    while q < EndPage(p)
      invariant FirstPage(p) <= q && (q <= EndPage(p) || q == FirstPage(p)) && mmu.Ready()
      invariant t == TakePages(t0, FirstPage(p), q) && Loading(j, n, q, hole, leak, t, mmu.S())
    {
      ok, hole, leak, t := PutPage(mmu, file, p, d, q, j, n, hole, leak, t);
      if !ok {
        PagesFailOnce(t0, FirstPage(p), q + 1, EndPage(p));
        return;
      }
      q := q + 1;
    }
    LoadingFacts(j, n, q, hole, leak, t, mmu.S());
    ok := true;
  }

  /** One turn of the page loop. */
  method PutPage(mmu: Mmu, file: seq<u8>, p: Phdr, d: nat, q: nat, ghost j: Job, ghost n: nat, ghost hole0: int, ghost leak0: set<nat>,
                 ghost t0: Tally)
    returns (ok: bool, ghost hole: int, ghost leak: set<nat>, ghost t: Tally)
    requires mmu.Ready() && j.file == file && j.d == d && InSegment(j, n) && p == j.ps[n] && FirstPage(p) <= q < EndPage(p)
    requires Loading(j, n, q, hole0, leak0, t0, mmu.S())
    modifies mmu, mmu.pmm, mmu.pmm.bitmap
    ensures mmu.Ready() && t == TakePage(t0, q) && (ok <==> !t.failed)
    ensures ok ==> Loading(j, n, q + 1, hole, leak, t, mmu.S())
    ensures !ok ==> Building(j.s0, j.dirs, mmu.S(), j.d, leak) && |leak| == Leaks(t)
  {
    hide Loading, Building, CanPlace, CanLoad, Placed, InSegment, SlotReady, FrameAllocator.Valid, TakePage, Full, PageFrame;
    hide RunsDry, FirstPage, EndPage, Matches, Walk, ViewAt, PageBytes, Writes, UsedSet, Reserved, Fresh, Dropped, Leaks;
    ghost var s := mmu.S();
    t := TakePage(t0, q);
    NextPage(j, n, q);
    SegmentFacts(j, n);
    PageIndex(q);
    LoadingFacts(j, n, q, hole0, leak0, t0, s);
    var b := CopyPage(file, p, q);
    var f := mmu.PlacePage(d, 4096 * q, Data(b), Writes(p), j.s0, j.dirs, leak0);
    if f == 0 {
      NoFrame(t0, s, j.d, q);
      return false, hole0, leak0, t;
    }
    PlacedPage(j, n, q, hole0, leak0, t0, s, f);
    LoadPage(j, n, q, hole0, leak0, t0, s, f);
    hole, leak := if RunsDry(s, j.d, q / 1024, f) then q else hole0, leak0 + Dropped(s, j.d, q, f);
    LoadingFacts(j, n, q + 1, hole, leak, t, mmu.S());
    ok := true;
  }

  lemma SegmentFacts(j: Job, n: nat)
    requires InSegment(j, n)
    ensures n < |j.ps| && j.ps[n].offset + j.ps[n].filesz <= |j.file|
  {
  }

  lemma LoadingFacts(j: Job, n: nat, end: nat, hole: int, leak: set<nat>, t: Tally, s: Sys)
    requires Loading(j, n, end, hole, leak, t, s)
    ensures Building(j.s0, j.dirs, s, j.d, leak) && Matches(t, s, j.d) && !t.failed && |leak| == Leaks(t)
    ensures t.lost ==> t.free == 0
  {
  }

  lemma NoFrame(t: Tally, s: Sys, d: nat, q: nat)
    requires Matches(t, s, d) && |s.used| == TOTAL_FRAMES && !t.failed
    ensures TakePage(t, q) == t.(failed := true) && Leaks(TakePage(t, q)) == Leaks(t)
  {
  }

  lemma PlacedPage(j: Job, n: nat, q: nat, hole: int, leak: set<nat>, t: Tally, s: Sys, f: nat)
    requires Loading(j, n, q, hole, leak, t, s) && InSegment(j, n) && OnPage(j.ps[n], q) && 4096 <= q < 0x10_0000
    requires CanPlace(j.s0, j.dirs, s, j.d, leak, q / 1024, q % 1024, f, Data(PageBytes(j.file, j.ps[n], q)))
    ensures CanLoad(j, n, q, hole, leak, t, s, f) && PageFrame(j, n, q) == Data(PageBytes(j.file, j.ps[n], q))
  {
  }

  /** Maps every PT_LOAD segment; fails on a bad segment or when no page is left. */
  method LoadSegments(mmu: Mmu, file: seq<u8>, h: Ehdr, d: nat, ghost j: Job, ghost t0: Tally)
    returns (ok: bool, ghost hole: int, ghost leak: set<nat>, ghost t: Tally)
    requires mmu.Ready() && TableFits(file, h) && j.file == file && j.d == d && j.ps == Phdrs(file, h)
    requires Loading(j, 0, 0, -1, {}, t0, mmu.S())
    modifies mmu, mmu.pmm, mmu.pmm.bitmap
    ensures mmu.Ready() && t == TakeSegments(t0, j.ps, |file|, |j.ps|) && (ok <==> !t.failed)
    ensures ok ==> Loading(j, |j.ps|, 0, hole, leak, t, mmu.S())
    ensures !ok ==> Building(j.s0, j.dirs, mmu.S(), j.d, leak) && |leak| == Leaks(t)
  {
    hide Loading, Building, InSegment, FrameAllocator.Valid, TakePages, Loads, Checks, TableFits, PhdrAt;
    hole, leak, t := -1, {}, t0;
    var i := 0;
    while i < h.phnum
      invariant 0 <= i <= h.phnum && mmu.Ready()
      invariant t == TakeSegments(t0, j.ps, |file|, i) && Loading(j, i, 0, hole, leak, t, mmu.S())
    {
      EntryInTable(file, h, i);
      var p := PhdrAt(file, h.phoff + i * h.phentsize);
      assert p == j.ps[i];
      LoadingFacts(j, i, 0, hole, leak, t, mmu.S());
      if !Loads(p) {
        SegmentSkipped(j, i, hole, leak, t, mmu.S());
      } else if !Checks(p, |file|) {
        SegmentsFailOnce(t0, j.ps, |file|, i + 1, |j.ps|);
        t := t.(failed := true);
        return false, hole, leak, t;
      } else {
        SegmentStarts(j, i, hole, leak, t, mmu.S());
        var loaded;
        loaded, hole, leak, t := LoadPages(mmu, file, p, d, j, i, hole, leak, t);
        if !loaded {
          SegmentsFailOnce(t0, j.ps, |file|, i + 1, |j.ps|);
          return false, hole, leak, t;
        }
        SegmentEnds(j, i, if FirstPage(p) < EndPage(p) then EndPage(p) else FirstPage(p), hole, leak, t, mmu.S());
      }
      i := i + 1;
    }
    LoadingFacts(j, i, 0, hole, leak, t, mmu.S());
    ok := true;
  }

  // ----- Loading a program

  /** What the loader relies on in a file it accepts: no range it reads wraps round and leaves the file. */
  predicate WellFormed(file: seq<u8>) {
    && |file| < TWO_32
    && (Validates(file) ==>
          && TableFits(file, EhdrOf(file))
          && forall k :: 0 <= k < |Phdrs(file, EhdrOf(file))| ==> InFile(Phdrs(file, EhdrOf(file))[k], |file|))
  }

  /** The frames left after loading segments and stack, starting with `free` of them. */
  function Demand(file: seq<u8>, free: nat): (t: Tally)
    requires WellFormed(file) && Validates(file) && free >= 2
  {
    var ps := Phdrs(file, EhdrOf(file));
    TakePage(TakeSegments(Tally({}, {}, free - 2, false, false, 0), ps, |file|, |ps|), STACK_PAGE)
  }

  /** How many frames the load loses for good, whether it succeeds or not. */
  function Losses(file: seq<u8>, free: nat): (n: nat)
    requires WellFormed(file)
  {
    if Validates(file) && free >= 2 then Leaks(Demand(file, free)) else 0
  }

  /** Whether the load succeeds when a task slot is free. */
  predicate Succeeds(file: seq<u8>, free: nat)
    requires WellFormed(file)
  {
    Validates(file) && free >= 2 && !Demand(file, free).failed && Demand(file, free).free >= 1
  }

  ghost function JobOf(s0: Sys, dirs: set<nat>, d: nat, file: seq<u8>): (j: Job)
    requires WellFormed(file) && Validates(file)
    ensures JobOk(j)
  {
    Job(s0, dirs, d, file, Phdrs(file, EhdrOf(file)))
  }

  /** The stack page and stack pointer the process starts with. */
  ghost predicate StackReady(stack: seq<u8>, esp: u32, argv: seq<seq<u8>>) {
    && |stack| == 4096
    && (|argv| == 0 || TooLarge(Strs(argv)) ==> esp == USER_STACK_TOP && stack == Zeros(4096))
    && (|argv| > 0 && !TooLarge(Strs(argv)) ==> Receives(stack, esp, Strs(argv)))
  }

  /** The state is `s0` again but for the frames in `leak`. */
  ghost predicate Undoes(s0: Sys, dirs: set<nat>, leak: set<nat>, r: Sys) {
    r.used == s0.used + leak && leak !! s0.used && |r.mem| == |s0.mem| && SameBelow(s0, r) && SysOk(r, dirs) && KernelLow(r)
  }

  lemma NothingLost(s0: Sys, dirs: set<nat>, r: Sys)
    requires r.used == s0.used && |r.mem| == |s0.mem| && SameBelow(s0, r) && SysOk(r, dirs) && KernelLow(r)
    ensures Undoes(s0, dirs, {}, r)
  {
  }

  lemma StartLoad(j: Job, p: nat, r: Sys, n: nat)
    requires JobOk(j) && SysOk(j.s0, j.dirs) && KernelLow(j.s0) && KernelTableZero(j.s0) && n == |r.used|
    requires j.d !in j.s0.used && p !in j.s0.used && j.d != p && j.d < TOTAL_FRAMES && p < TOTAL_FRAMES
    requires j.d < |j.s0.mem| && p < |j.s0.mem| && r == Cloned(j.s0, j.d, p)
    ensures n <= TOTAL_FRAMES && Loading(j, 0, 0, -1, {}, Tally({}, {}, TOTAL_FRAMES - n, false, false, 0), r)
  {
    hide Loading, UserAccess;
    BuildClone(j.s0, j.dirs, j.d, p);
    CloneIsTable(j.s0, j.dirs, r, j.d);
    LoadStarts(j, r);
  }

  /** The stack page: zeroed, mapped, and holding the arguments. */
  method AddStack(mmu: Mmu, d: nat, argv: seq<seq<u8>>, ghost j: Job, ghost hole: int, ghost leak0: set<nat>, ghost t: Tally)
    returns (ok: bool, esp: u32, ghost stack: seq<u8>, ghost leak: set<nat>)
    requires mmu.Ready() && j.d == d && Loading(j, |j.ps|, 0, hole, leak0, t, mmu.S())
    requires Placeable(Strs(argv)) && forall i :: 0 <= i < |argv| ==> Terminated(argv[i])
    modifies mmu, mmu.pmm, mmu.pmm.bitmap
    ensures mmu.Ready() && (ok <==> !TakePage(t, STACK_PAGE).failed)
    ensures Building(j.s0, j.dirs, mmu.S(), d, leak) && |leak| == Leaks(TakePage(t, STACK_PAGE))
    ensures ok ==> && StackReady(stack, esp, argv) && |mmu.pmm.Used()| + TakePage(t, STACK_PAGE).free == TOTAL_FRAMES
                   && (!TakePage(t, STACK_PAGE).lost ==> Reached(j, |j.ps|) && ProcessView(j, stack, mmu.mem))
  {
    hide Loading, Building, CanPlace, Placed, SlotReady, Full, Fresh, RunsDry, ProcessView, Receives, Writable, Dropped, Leaks;
    hide FrameAllocator.Valid, TakePage, Terminated, TooLarge, Placeable;
    stack, esp, leak := Zeros(4096), USER_STACK_TOP, leak0;
    ghost var s := mmu.S();
    LoadingFacts(j, |j.ps|, 0, hole, leak0, t, s);
    var f := mmu.PlacePage(d, USER_STACK_VIRT, ZeroPage(), true, j.s0, j.dirs, leak0);
    if f == 0 {
      NoFrame(t, s, d, STACK_PAGE);
      return false, esp, stack, leak0;
    }
    PlacedStack(j, hole, leak0, t, s, f);
    var page;
    page, esp := SetupArgs(Zeros(4096), argv);
    mmu.mem := Fill(mmu.mem, f, Data(page));
    ok, stack, leak := true, page, leak0 + Dropped(s, d, STACK_PAGE, f);
    StackFilled(j, hole, leak0, t, s, f, page);
  }

  lemma PlacedStack(j: Job, hole: int, leak: set<nat>, t: Tally, s: Sys, f: nat)
    requires Loading(j, |j.ps|, 0, hole, leak, t, s) && CanPlace(j.s0, j.dirs, s, j.d, leak, 767, 1023, f, ZeroPage())
    ensures CanPlaceStack(j, hole, leak, t, s, f, ZeroPage()) && IsTable(s.mem, j.d) && !TakePage(t, STACK_PAGE).failed
    ensures f < |s.mem| && SlotReady(Fresh(s, f, ZeroPage()), j.d, 767)
    ensures |Placed(s, j.d, 767, 1023, f, ZeroPage(), true).mem| == TOTAL_FRAMES && f < TOTAL_FRAMES
  {
    PlaceFacts(j.s0, j.dirs, s, j.d, leak, 767, 1023, f, ZeroPage());
    StackBuilds(j, hole, leak, t, s, f, ZeroPage());
  }

  /** The page with the arguments is what the process sees as its stack, unless it was lost. */
  lemma StackFilled(j: Job, hole: int, leak: set<nat>, t: Tally, s: Sys, f: nat, page: seq<u8>)
    requires CanPlaceStack(j, hole, leak, t, s, f, ZeroPage()) && IsTable(s.mem, j.d) && |page| == 4096 && f < |s.mem|
    requires SlotReady(Fresh(s, f, ZeroPage()), j.d, 767)
    ensures var m := Placed(s, j.d, 767, 1023, f, ZeroPage(), true);
            var all := leak + Dropped(s, j.d, STACK_PAGE, f);
            && f < |m.mem|
            && var r := m.(mem := Fill(m.mem, f, Data(page)));
            && Building(j.s0, j.dirs, r, j.d, all) && |all| == Leaks(TakePage(t, STACK_PAGE))
            && |r.used| + TakePage(t, STACK_PAGE).free == TOTAL_FRAMES
            && (!TakePage(t, STACK_PAGE).lost ==> Reached(j, |j.ps|) && ProcessView(j, page, r.mem))
  {
    hide Building, CanPlace, Placed, Full, Fresh, RunsDry, ProcessView, Shows, Matches, SlotReady, TakePage, Leaks;
    var x := ZeroPage();
    var m := Placed(s, j.d, 767, 1023, f, x, true);
    var all := leak + Dropped(s, j.d, STACK_PAGE, f);
    StackBuilds(j, hole, leak, t, s, f, x);
    if RunsDry(s, j.d, 767, f) {
      WriteBuilds(j.s0, j.dirs, m, j.d, all, f, Data(page));
    } else {
      StackShows(j, hole, leak, t, s, f, x);
      StackWritten(j, x.bytes, m, all, f, Data(page));
    }
  }

  /** Segments, stack page and arguments, in a directory of the process's own; on failure all but `leak` is given back. */
  method BuildImage(mmu: Mmu, file: seq<u8>, argv: seq<seq<u8>>, ghost s0: Sys, ghost dirs: set<nat>)
    returns (ok: bool, d: nat, esp: u32, ghost stack: seq<u8>, ghost leak: set<nat>)
    requires mmu.Ready() && mmu.S() == s0 && SysOk(s0, dirs) && KernelLow(s0) && WellFormed(file) && Validates(file)
    requires Placeable(Strs(argv)) && forall i :: 0 <= i < |argv| ==> Terminated(argv[i])
    modifies mmu, mmu.pmm, mmu.pmm.bitmap
    ensures mmu.Ready() && |s0.used| <= TOTAL_FRAMES && mmu.pmm.usedFrames == |mmu.pmm.Used()|
    ensures ok <==> |s0.used| + 2 <= TOTAL_FRAMES && !Demand(file, TOTAL_FRAMES - |s0.used|).failed
    ensures |leak| == Losses(file, TOTAL_FRAMES - |s0.used|)
    ensures ok ==>
              && Building(s0, dirs, mmu.S(), d, leak) && StackReady(stack, esp, argv)
              && |mmu.pmm.Used()| + Demand(file, TOTAL_FRAMES - |s0.used|).free == TOTAL_FRAMES
              && (!Demand(file, TOTAL_FRAMES - |s0.used|).lost ==>
                    && Reached(JobOf(s0, dirs, d, file), |Phdrs(file, EhdrOf(file))|)
                    && ProcessView(JobOf(s0, dirs, d, file), stack, mmu.mem))
    ensures !ok ==> Undoes(s0, dirs, leak, mmu.S())
  {
    hide SysOk, KernelLow, Building, Loading, Cloned, KernelTableZero, TakePage, TakeSegments, Reached, ProcessView, StackReady;
    hide Undoes, SameBelow, Phdrs, EhdrOf, WellFormed, TableFits, Leaks, Placeable;
    AllBelow(mmu.pmm.Used(), TOTAL_FRAMES);
    stack, esp, leak := Zeros(4096), USER_STACK_TOP, {};
    ghost var p;
    ok, d, p := mmu.CloneDirectory();
    if !ok {
      CloneFailed(s0, dirs, mmu.S());
      NothingLost(s0, dirs, mmu.S());
      return;
    }
    ghost var j := JobOf(s0, dirs, d, file);
    ghost var t0 := Tally({}, {}, TOTAL_FRAMES - |s0.used| - 2, false, false, 0);
    StartLoad(j, p, mmu.S(), |s0.used| + 2);
    ghost var hole, t;
    var h := EhdrOf(file);
    TableIsThere(file);
    ok, hole, leak, t := LoadSegments(mmu, file, h, d, j, t0);
    if !ok {
      FailedTally(t, STACK_PAGE);
      GaveBack(s0, dirs, mmu.S(), d, leak);
      mmu.FreeDirectory(d);
      return;
    }
    ok, esp, stack, leak := AddStack(mmu, d, argv, j, hole, leak, t);
    if !ok {
      GaveBack(s0, dirs, mmu.S(), d, leak);
      mmu.FreeDirectory(d);
    }
  }

  lemma TableIsThere(file: seq<u8>)
    requires WellFormed(file) && Validates(file)
    ensures TableFits(file, EhdrOf(file))
  {
  }

  lemma FailedTally(t: Tally, q: nat)
    requires t.failed
    ensures TakePage(t, q) == t
  {
  }

  lemma GaveBack(s0: Sys, dirs: set<nat>, s: Sys, d: nat, leak: set<nat>)
    requires Building(s0, dirs, s, d, leak)
    ensures ProcOk(s, d) && Undoes(s0, dirs, leak, Torn(s, d))
  {
    TearDown(s0, dirs, s, d, leak);
  }

  /** A load that succeeds has every page in place; what it lost are pages that were replaced. */
  lemma SuccessIsComplete(file: seq<u8>, free: nat)
    requires WellFormed(file) && Validates(file) && free >= 2 && Demand(file, free).free >= 1
    ensures !Demand(file, free).lost
  {
    var ps := Phdrs(file, EhdrOf(file));
    SegmentsLoseLast(Tally({}, {}, free - 2, false, false, 0), ps, |file|, |ps|);
  }

  /**
   How a load from `k0` to `k` ends. It succeeds exactly when a slot is free and
   the frames suffice, and the frames it loses are counted either way.
   */
  ghost predicate LoadEnds(k0: Kernel, file: seq<u8>, argv: seq<seq<u8>>, i: nat, stack: seq<u8>, leak: set<nat>, k: Kernel,
                           enterUsermode: u32)
    requires WellFormed(file)
  {
    && |k0.sys.used| <= TOTAL_FRAMES && |leak| == Losses(file, TOTAL_FRAMES - |k0.sys.used|)
    && (i < MAX_TASKS <==> FreeSlot(k0.pool, 0) < MAX_TASKS && Succeeds(file, TOTAL_FRAMES - |k0.sys.used|))
    && (i >= MAX_TASKS ==> Next(k0, Fail(leak), k))
    && (i < MAX_TASKS ==>
          && i == FreeSlot(k0.pool, 0) && i < |k.pool| && Next(k0, Spawn(i, k.pool[i], leak), k)
          && Started(k.sys.mem, k.pool[i], file, argv, stack, k0.sys, Dirs(Settled(k0)), enterUsermode))
  }

  /**
   Loads a program and spawns it. A process that is spawned sees exactly its
   segments and its stack page. All frames the load does not leave to the process
   are given back, but for those a mapping replaced and a last one that found no
   table.
   */
  method Load(tm: TaskManager, file: seq<u8>, argv: seq<seq<u8>>)
    returns (i: nat, ghost stack: seq<u8>, ghost leak: set<nat>)
    requires tm.Valid() && WellFormed(file)
    requires Placeable(Strs(argv)) && forall k :: 0 <= k < |argv| ==> Terminated(argv[k])
    modifies tm, tm.queue, tm.mmu, tm.mmu.pmm, tm.mmu.pmm.bitmap
    ensures tm.Valid() && tm.base == old(tm.base) + leak
    ensures LoadEnds(old(tm.K()), file, argv, i, stack, leak, tm.K(), tm.enterUsermode)
  {
    hide Coherent, Building, Next, FreeSlot, WellFormed, Succeeds, Losses, Demand, JobOf, Settled, Queue.Valid, Placeable;
    hide SysOk, KernelLow, Undoes, Reached, ProcessView, StackReady, StackPage, UserFrame, FrameAllocator.Valid, Started, Stacked;
    hide UsedSet, Reserved, Validates, Terminated;
    ghost var k0, s0, dirs := tm.K(), tm.mmu.S(), Dirs(Settled(tm.K()));
    stack, leak := Zeros(4096), {};
    WorldFacts(tm.base, k0);
    AllBelow(s0.used, TOTAL_FRAMES);
    NothingDone(tm.base, k0, k0.pool);
    if !Validates(file) {
      NoLoad(file, TOTAL_FRAMES - |s0.used|);
      return MAX_TASKS, stack, leak;
    }
    var ok, d, esp;
    ok, d, esp, stack, leak := BuildImage(tm.mmu, file, argv, s0, dirs);
    LoadOutcome(file, TOTAL_FRAMES - |s0.used|);
    if !ok {
      LoadFailed(tm.base, k0, leak, tm.mmu.S(), k0.pool);
      tm.base := tm.base + leak;
      return MAX_TASKS, stack, leak;
    }
    i := Start(tm, file, d, esp, s0, stack, leak, argv);
  }

  /** Spawns the task around the finished directory, or gives the directory back. */
  method Start(tm: TaskManager, file: seq<u8>, d: nat, esp: u32, ghost s0: Sys, ghost stack: seq<u8>, ghost leak: set<nat>,
               ghost argv: seq<seq<u8>>)
    returns (i: nat)
    requires tm.mmu.Ready() && tm.queue.Valid() && tm.WrappersLow() && Coherent(tm.base, tm.With(s0))
    requires Building(s0, Dirs(Settled(tm.With(s0))), tm.mmu.S(), d, leak)
    requires WellFormed(file) && Validates(file) && StackReady(stack, esp, argv)
    requires tm.mmu.pmm.usedFrames < TOTAL_FRAMES ==>
               && Reached(JobOf(s0, Dirs(Settled(tm.With(s0))), d, file), |Phdrs(file, EhdrOf(file))|)
               && ProcessView(JobOf(s0, Dirs(Settled(tm.With(s0))), d, file), stack, tm.mmu.mem)
    modifies tm, tm.queue, tm.mmu, tm.mmu.pmm, tm.mmu.pmm.bitmap
    ensures tm.Valid() && tm.base == old(tm.base) + leak
    ensures i < MAX_TASKS <==> FreeSlot(old(tm.pool), 0) < MAX_TASKS && old(tm.mmu.pmm.usedFrames) < TOTAL_FRAMES
    ensures i >= MAX_TASKS ==> Next(old(tm.With(s0)), Fail(leak), tm.K())
    ensures i < MAX_TASKS ==>
              && i == FreeSlot(old(tm.pool), 0) && i < |tm.pool| && Next(old(tm.With(s0)), Spawn(i, tm.pool[i], leak), tm.K())
              && Started(tm.mmu.mem, tm.pool[i], file, argv, stack, s0, Dirs(Settled(old(tm.With(s0)))), tm.enterUsermode)
  {
    hide Coherent, Building, Next, FreeSlot, WellFormed, JobOf, Started, SysOk, KernelLow, Settled, Queue.Valid, PoolAfterFail;
    hide Undoes, Reached, ProcessView, StackReady, StackPage, UserFrame, FrameAllocator.Valid, Stacked;
    ghost var s, k0 := tm.mmu.S(), tm.With(s0);
    ghost var dirs := Dirs(Settled(k0));
    i := tm.CreateUserMapped(EhdrOf(file).entry, d, esp, s0, leak);
    if i >= MAX_TASKS {
      GaveBack(s0, dirs, tm.mmu.S(), d, leak);
      tm.mmu.FreeDirectory(d);
      LoadFailed(tm.base, k0, leak, tm.mmu.S(), tm.pool);
      tm.base := tm.base + leak;
      return;
    }
    StartsSo(s, leak, tm.mmu.mem, tm.pool[i], file, argv, stack, s0, dirs, tm.enterUsermode);
  }

  /** What the new task runs: its image, its stack and arguments, and the frame that enters Ring 3 at the entry point. */
  ghost predicate Started(mem: Phys, t: Tcb, file: seq<u8>, argv: seq<seq<u8>>, stack: seq<u8>, s0: Sys, dirs: set<nat>,
                          enterUsermode: u32)
    requires WellFormed(file)
  {
    && Validates(file) && Reached(JobOf(s0, dirs, t.pageDir, file), |Phdrs(file, EhdrOf(file))|)
    && ProcessView(JobOf(s0, dirs, t.pageDir, file), stack, mem) && StackReady(stack, t.userStackTop, argv)
    && Stacked(mem, t, [0, 0, 0, 0, enterUsermode, EhdrOf(file).entry, 0x1B, 0x202, t.userStackTop, 0x23])
  }

  lemma StartsSo(s: Sys, leak: set<nat>, mem: Phys, t: Tcb, file: seq<u8>, argv: seq<seq<u8>>, stack: seq<u8>, s0: Sys,
                 dirs: set<nat>, enterUsermode: u32)
    requires WellFormed(file) && Validates(file) && Building(s0, dirs, s, t.pageDir, leak) && StackReady(stack, t.userStackTop, argv)
    requires Reached(JobOf(s0, dirs, t.pageDir, file), |Phdrs(file, EhdrOf(file))|)
    requires ProcessView(JobOf(s0, dirs, t.pageDir, file), stack, s.mem)
    requires t.kernelStack !in s.used && t.kernelStack < TOTAL_FRAMES && |s.mem| == TOTAL_FRAMES
    requires mem == Fill(s.mem, t.kernelStack,
                         StackPage(s.mem[t.kernelStack], UserFrame(enterUsermode, EhdrOf(file).entry, t.userStackTop)))
    requires Stacked(mem, t, [0, 0, 0, 0, enterUsermode, EhdrOf(file).entry, 0x1B, 0x202, t.userStackTop, 0x23])
    ensures Started(mem, t, file, argv, stack, s0, dirs, enterUsermode)
  {
    ViewKept(JobOf(s0, dirs, t.pageDir, file), stack, s, leak, t.kernelStack, mem[t.kernelStack]);
  }

  lemma WorldFacts(base: set<nat>, k: Kernel)
    requires Coherent(base, k)
    ensures SysOk(k.sys, Dirs(Settled(k))) && KernelLow(k.sys) && |k.sys.mem| == TOTAL_FRAMES && base + {} == base
  {
  }

  lemma NoLoad(file: seq<u8>, free: nat)
    requires WellFormed(file) && !Validates(file)
    ensures !Succeeds(file, free) && Losses(file, free) == 0
  {
  }

  lemma LoadOutcome(file: seq<u8>, free: nat)
    requires WellFormed(file) && Validates(file)
    ensures Succeeds(file, free) <==> free >= 2 && !Demand(file, free).failed && Demand(file, free).free >= 1
    ensures free >= 2 && Demand(file, free).free >= 1 ==> !Demand(file, free).lost
  {
    if free >= 2 && Demand(file, free).free >= 1 {
      SuccessIsComplete(file, free);
    }
  }

  lemma LoadFailed(base: set<nat>, k: Kernel, leak: set<nat>, r: Sys, pool: seq<Tcb>)
    requires Coherent(base, k) && Undoes(k.sys, Dirs(Settled(k)), leak, r) && PoolAfterFail(k, pool)
    ensures Next(k, Fail(leak), k.(sys := r, pool := pool)) && Coherent(base + leak, k.(sys := r, pool := pool))
  {
    FailedStep(base, k, leak, r, pool);
  }
}
