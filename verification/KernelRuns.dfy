/**
 Runs of the kernel state machine: what a linked task holds is never freed, and
 a reap that is interrupted goes on with what it found.
 */
module KernelRuns {
  import opened Pmm
  import opened PagingSpec
  import opened AddressSpace
  import opened Spaces
  import opened SpaceFrames
  import opened ProcessBuild
  import opened TaskSpec
  import opened KernelSteps
  import S = SchedSpec

  // ----- Linked tasks

  /** What a linked task holds is in use, is not being given back, and belongs to no other linked task. */
  lemma LinkedIsIntact(base: set<nat>, k: Kernel, i: nat, f: nat)
    requires Coherent(base, k) && i < MAX_TASKS && Linked(k, i) && Holds(k.sys.mem, k.pool[i], f)
    ensures ProcessFrame(k.sys, f) && f !in base && f !in k.todo
    ensures forall j: nat :: j < MAX_TASKS && j != i && Linked(k, j) ==> !Holds(k.sys.mem, k.pool[j], f)
  {
    LinkedIs(base, k, i);
    assert Settled(k)[i] == k.pool[i];
    HeldIsOwn(base + k.todo, k.sys, Settled(k), i, f);
    forall j: nat | j < MAX_TASKS && j != i && Linked(k, j) ensures !Holds(k.sys.mem, k.pool[j], f) {
      LinkedIs(base, k, j);
      assert Settled(k)[j] == k.pool[j];
    }
  }

  /** Task `i` stores into frame `f`. */
  predicate Alters(k: Kernel, step: Step, i: nat, f: nat) {
    step.Work? && step.frame == f && |k.sched.queue| > 0 && S.Current(k.sched) == i + 1
  }

  /** No step but its own unlinking takes a frame from a linked task, and nobody but the task writes to one. */
  lemma LinkedStays(base: set<nat>, k: Kernel, step: Step, r: Kernel, i: nat, f: nat)
    requires Coherent(base, k) && Next(k, step, r) && Harmless(k, step) && i < MAX_TASKS && Linked(k, i) && step != Unlink(i)
    ensures Linked(r, i) && r.pool[i] == k.pool[i] && |r.sys.mem| == |k.sys.mem|
    ensures Holds(r.sys.mem, r.pool[i], f) <==> Holds(k.sys.mem, k.pool[i], f)
    ensures Holds(k.sys.mem, k.pool[i], f) ==>
              f in r.sys.used && f < |k.sys.mem| && (Alters(k, step, i, f) || r.sys.mem[f] == k.sys.mem[f])
  {
    hide S.Inv, S.Next, S.Legal, WorldOk, StoresTo, Spawned, Failed;
    LinkedIs(base, k, i);
    StepKeeps(base, k, step, r);
    StaysLinked(base, k, step, r, i);
    assert Settled(k)[i] == k.pool[i];
    if step.Spawn? || step.Fail? {
      SpawnSame(k, step, r);
      HeldSame(base + k.todo, k.sys, Settled(k), r.sys, i, f);
    } else if step.Work? {
      WorkSame(base, k, step.frame, step.bytes, r, i, f);
    }
    if step.StoreWord? {
      StoreIsFree(base, k, r);
    }
    if Holds(k.sys.mem, k.pool[i], f) {
      LinkedIsIntact(base, k, i, f);
    }
  }

  lemma SpawnSame(k: Kernel, step: Step, r: Kernel)
    requires Next(k, step, r) && (step.Spawn? || step.Fail?)
    ensures |r.sys.mem| == |k.sys.mem| && SameBelow(k.sys, r.sys) && k.sys.used <= r.sys.used
  {
  }

  lemma WorkSame(base: set<nat>, k: Kernel, g: nat, x: Frame, r: Kernel, i: nat, f: nat)
    requires Coherent(base, k) && Next(k, Work(g, x), r) && i < MAX_TASKS && Linked(k, i)
    ensures Holds(r.sys.mem, k.pool[i], f) <==> Holds(k.sys.mem, k.pool[i], f)
    ensures Holds(k.sys.mem, k.pool[i], f) && f == g ==> S.Current(k.sched) == i + 1
  {
    hide WorldOk, S.Inv, StoresTo;
    CurrentLinked(base, k);
    var c := S.Current(k.sched) - 1;
    LinkedIs(base, k, i);
    LinkedIs(base, k, c);
    assert Settled(k)[c] == k.pool[c] && Settled(k)[i] == k.pool[i];
    WorkHolds(base + k.todo, k.sys, Settled(k), c, g, x, i, f);
    WritesOwn(base + k.todo, k.sys, Settled(k), c, g);
    if Holds(k.sys.mem, k.pool[i], f) && f == g && i != c {
      LinkedIsIntact(base, k, i, f);
      assert false;
    }
  }

  lemma StaysLinked(base: set<nat>, k: Kernel, step: Step, r: Kernel, i: nat)
    requires Coherent(base, k) && Next(k, step, r) && Harmless(k, step) && i < MAX_TASKS && Linked(k, i) && step != Unlink(i)
    requires Coherent(base + Lost(step), r)
    ensures Linked(r, i) && r.pool[i] == k.pool[i]
  {
    hide WorldOk, TodoOk, Spawned, Failed, S.Inv, S.Insert, S.Without, S.SwitchTo, S.PickAt, S.AfterTick, S.Shape;
    LinkedIs(base, k, i);
    LinkedIs(base + Lost(step), r, i);
    if step.Event? {
      EventKeeps(k.sched, step.event);
    }
  }

  /** What has still to be given back is neither taken nor overwritten meanwhile, so the frees read what was there. */
  lemma TodoStays(base: set<nat>, k: Kernel, step: Step, r: Kernel, f: nat)
    requires Coherent(base, k) && Next(k, step, r) && Harmless(k, step) && !step.Unlink? && f in r.todo
    ensures f in k.todo && f in r.sys.used && f < |k.sys.mem| && f < |r.sys.mem| && r.sys.mem[f] == k.sys.mem[f]
  {
    hide S.Inv, S.Next, S.Legal, WorldOk;
    StepKeeps(base, k, step, r);
    if step.Work? {
      WorkStep(base, k, step.frame, step.bytes, r);
    }
  }

  // ----- The address space being given back

  /** As long as none of it has been freed, it can stand beside the others. */
  lemma SpaceAside(base: set<nat>, k: Kernel, d: nat)
    requires Coherent(base, k) && ProcOk(k.sys, d) && Owned(k.sys.mem, d) <= k.todo
    ensures SysOk(k.sys, Dirs(Settled(k)) + {d}) && KernelLow(k.sys)
  {
    var q := Settled(k);
    forall c, f: nat | c in Dirs(q) && Owns(k.sys.mem, c, f) ensures f < |k.sys.mem| && f !in k.todo {
      var j :| 0 <= j < |q| && q[j].pageDir == c;
      OwnedIsUsed(k.sys, c, f);
      assert Holds(k.sys.mem, q[j], f);
    }
    forall c, f: nat | c in Dirs(q) && Owns(k.sys.mem, c, f) ensures !Owns(k.sys.mem, d, f) {
      assert f !in Owned(k.sys.mem, d);
    }
  }

  lemma SpaceGrows(s: Sys, dirs: set<nat>, r: Sys, d: nat)
    requires SysOk(s, dirs) && d in dirs && |r.mem| == |s.mem| && SameBelow(s, r) && s.used <= r.used
    requires forall f :: f in r.used ==> f < TOTAL_FRAMES
    ensures ProcOk(r, d) && Owned(r.mem, d) == Owned(s.mem, d)
  {
    var u := r.(used := s.used);
    UnusedWrites(s, dirs, u);
    AllCovered(u, dirs);
    UsedChangesOne(u, dirs, r.used, d);
    assert u.(used := r.used) == r;
    forall f: nat ensures Owns(r.mem, d, f) <==> Owns(s.mem, d, f) {
      SpaceSame(s, r, dirs, d, f);
    }
  }

  lemma SpaceWorks(s: Sys, dirs: set<nat>, f: nat, x: Frame, d: nat)
    requires SysOk(s, dirs) && d in dirs && f < |s.mem| && NoTable(s, dirs, f) && x.Data?
    ensures ProcOk(Stored(s, f, x), d) && Owned(Stored(s, f, x).mem, d) == Owned(s.mem, d)
  {
    DataProc(s, dirs, f, x, d);
    forall g: nat ensures Owns(Stored(s, f, x).mem, d, g) <==> Owns(s.mem, d, g) {
      DataOwns(s, dirs, f, x, d, g);
    }
  }

  lemma SpaceShrinks(s: Sys, dirs: set<nat>, fs: set<nat>, d: nat)
    requires SysOk(s, dirs) && d in dirs && fs !! Owned(s.mem, d)
    requires forall f :: f in fs ==> ProcessFrame(s, f)
    ensures ProcOk(Released(s, fs), d)
  {
    assert SysOk(s, {d});
    AllCovered(s, {d});
    forall f: nat | Owns(s.mem, d, f) ensures f !in fs {
      OwnedIsUsed(s, d, f);
    }
    assert Covers(s, {d}, s.used - fs);
    UsedChangesOne(s, {d}, s.used - fs, d);
  }

  /** No step but a free of its own frames changes the address space that waits to be given back. */
  lemma SpaceWaits(base: set<nat>, k: Kernel, step: Step, r: Kernel, d: nat)
    requires Coherent(base, k) && Next(k, step, r) && Harmless(k, step) && !step.Unlink?
    requires ProcOk(k.sys, d) && Owned(k.sys.mem, d) <= r.todo <= k.todo
    ensures ProcOk(r.sys, d) && Owned(r.sys.mem, d) == Owned(k.sys.mem, d)
  {
    hide S.Inv, S.Next, S.Legal, Coherent, ProcOk, SysOk, StoresTo, Harmless, StoredBack;
    SpaceAside(base, k, d);
    match step
    case Event(_) =>
    case Work(f, x) =>
      WorkAside(base, k, f, x, r, d);
      SpaceWorks(k.sys, Dirs(Settled(k)) + {d}, f, x, d);
    case Spawn(_, _, _) =>
      StepKeeps(base, k, step, r);
      SpawnSame(k, step, r);
      KernelFacts(base + Lost(step), r);
      SpaceGrows(k.sys, Dirs(Settled(k)) + {d}, r.sys, d);
    case Fail(_) =>
      StepKeeps(base, k, step, r);
      SpawnSame(k, step, r);
      KernelFacts(base + Lost(step), r);
      SpaceGrows(k.sys, Dirs(Settled(k)) + {d}, r.sys, d);
    case StoreWord =>
      KernelFacts(base, k);
      StoreIsFree(base, k, r);
      SpaceShrinks(k.sys, Dirs(Settled(k)) + {d}, {k.load.frame}, d);
    case _ =>
  }

  lemma KernelFacts(base: set<nat>, k: Kernel)
    requires Coherent(base, k)
    ensures |k.pool| == MAX_TASKS && |k.sched.queue| > 0 && |k.sched.state| == |k.sched.live| == S.TASKS && S.Inv(k.sched)
    ensures (forall f :: f in k.sys.used ==> f < TOTAL_FRAMES) && forall f :: f in k.todo ==> ProcessFrame(k.sys, f)
  {
  }

  lemma WorkAside(base: set<nat>, k: Kernel, f: nat, x: Frame, r: Kernel, d: nat)
    requires Coherent(base, k) && Next(k, Work(f, x), r) && Owned(k.sys.mem, d) <= k.todo
    ensures NoTable(k.sys, Dirs(Settled(k)) + {d}, f)
  {
    hide WorldOk, S.Inv, StoresTo;
    CurrentLinked(base, k);
    var i := S.Current(k.sched) - 1;
    LinkedIs(base, k, i);
    assert Settled(k)[i] == k.pool[i];
    WriteIsData(base + k.todo, k.sys, Settled(k), i, f);
    WorkStep(base, k, f, x, r);
    assert f !in Owned(k.sys.mem, d);
  }

  // ----- Runs

  ghost predicate IsRun(steps: seq<Step>, ks: seq<Kernel>) {
    && |ks| == |steps| + 1
    && forall n :: 0 <= n < |steps| ==> Next(ks[n], steps[n], ks[n + 1])
  }

  /** One run after another. */
  lemma Join(a: seq<Step>, ka: seq<Kernel>, b: seq<Step>, kb: seq<Kernel>) returns (steps: seq<Step>, ks: seq<Kernel>)
    requires IsRun(a, ka) && IsRun(b, kb) && ka[|a|] == kb[0]
    ensures IsRun(steps, ks) && steps == a + b && ks[0] == ka[0] && ks[|steps|] == kb[|b|]
  {
    hide Next;
    steps, ks := a + b, ka + kb[1..];
    forall n | 0 <= n < |steps| ensures Next(ks[n], steps[n], ks[n + 1]) {
      if n >= |a| {
        assert Next(kb[n - |a|], b[n - |a|], kb[n - |a| + 1]);
        assert ks[n] == kb[n - |a|];
      }
    }
  }

  function AllLost(steps: seq<Step>, n: nat): (fs: set<nat>)
    requires n <= |steps|
  {
    if n == 0 then {} else AllLost(steps, n - 1) + Lost(steps[n - 1])
  }

  /** The first `n` steps do no harm. */
  ghost predicate HarmlessRun(steps: seq<Step>, ks: seq<Kernel>, n: nat)
    requires |ks| == |steps| + 1 && n <= |steps|
  {
    forall m :: 0 <= m < n ==> Harmless(ks[m], steps[m])
  }

  /**
   Through a run the frames in use are the initial ones, those of live tasks,
   those being given back, and those lost, exactly as long as every step is
   harmless.
   */
  lemma {:induction false} RunExact(base: set<nat>, steps: seq<Step>, ks: seq<Kernel>, n: nat)
    requires IsRun(steps, ks) && Coherent(base, ks[0]) && n <= |steps|
    ensures (forall m :: 0 <= m <= n ==> Coherent(base + AllLost(steps, m), ks[m])) <==> HarmlessRun(steps, ks, n)
  {
    hide Coherent, Next, Harmless;
    if n == 0 {
      assert base + {} == base;
    } else {
      RunExact(base, steps, ks, n - 1);
      assert HarmlessRun(steps, ks, n) <==> HarmlessRun(steps, ks, n - 1) && Harmless(ks[n - 1], steps[n - 1]);
      assert base + AllLost(steps, n - 1) + Lost(steps[n - 1]) == base + AllLost(steps, n);
      if Coherent(base + AllLost(steps, n - 1), ks[n - 1]) {
        StepExact(base + AllLost(steps, n - 1), ks[n - 1], steps[n - 1], ks[n]);
      }
    }
  }

  lemma RunConserves(base: set<nat>, steps: seq<Step>, ks: seq<Kernel>, n: nat)
    requires IsRun(steps, ks) && Coherent(base, ks[0]) && n <= |steps| && HarmlessRun(steps, ks, n)
    ensures Coherent(base + AllLost(steps, n), ks[n])
  {
    hide Coherent, Next, Harmless;
    RunExact(base, steps, ks, n);
  }

  /** Once every task has been reaped, exactly the initial frames and those lost are in use. */
  lemma AllReaped(base: set<nat>, steps: seq<Step>, ks: seq<Kernel>)
    requires IsRun(steps, ks) && Coherent(base, ks[0]) && HarmlessRun(steps, ks, |steps|)
    requires forall i :: 0 <= i < |ks[|steps|].pool| ==> ks[|steps|].pool[i] == FREE
    ensures ks[|steps|].sys.used == base + AllLost(steps, |steps|)
  {
    var k := ks[|steps|];
    RunConserves(base, steps, ks, |steps|);
    LinkedIs(base + AllLost(steps, |steps|), k, 0);
    assert Settled(k) == k.pool;
  }

  /**
   A task that is linked has kept every frame of its stack and its address space
   since any earlier moment at which it was linked: in use, held by it alone, in
   none of the frees, and written by nobody else.
   */
  lemma {:induction false} LinkedNeverFreed(base: set<nat>, steps: seq<Step>, ks: seq<Kernel>, a: nat, n: nat, i: nat, f: nat)
    requires IsRun(steps, ks) && Coherent(base, ks[0]) && a <= n <= |steps| && HarmlessRun(steps, ks, n)
    requires i < MAX_TASKS && Linked(ks[a], i)
    requires forall m :: a <= m < n ==> steps[m] != Unlink(i)
    ensures Linked(ks[n], i) && |ks[a].pool| == |ks[n].pool| == MAX_TASKS && ks[n].pool[i] == ks[a].pool[i]
    ensures Holds(ks[n].sys.mem, ks[n].pool[i], f) <==> Holds(ks[a].sys.mem, ks[a].pool[i], f)
    ensures Holds(ks[a].sys.mem, ks[a].pool[i], f) ==>
              && f in ks[n].sys.used && f < |ks[n].sys.mem| && f < |ks[a].sys.mem|
              && ((forall m :: a <= m < n ==> !Alters(ks[m], steps[m], i, f)) ==> ks[n].sys.mem[f] == ks[a].sys.mem[f])
              && (n < |steps| && steps[n].LoadWord? ==> steps[n].frame != f)
              && forall j: nat :: j < MAX_TASKS && j != i && Linked(ks[n], j) ==> !Holds(ks[n].sys.mem, ks[n].pool[j], f)
    decreases n
  {
    hide Coherent, Next, Linked, Alters, Harmless;
    RunConserves(base, steps, ks, n);
    if a < n {
      LinkedNeverFreed(base, steps, ks, a, n - 1, i, f);
      RunConserves(base, steps, ks, n - 1);
      LinkedStays(base + AllLost(steps, n - 1), ks[n - 1], steps[n - 1], ks[n], i, f);
    }
    LinkedIs(base + AllLost(steps, n), ks[n], i);
    if Holds(ks[n].sys.mem, ks[n].pool[i], f) {
      LinkedIsIntact(base + AllLost(steps, n), ks[n], i, f);
      if n < |steps| && steps[n].LoadWord? {
        FreesPending(ks[n], steps[n], ks[n + 1]);
      }
    }
  }

  lemma FreesPending(k: Kernel, step: Step, r: Kernel)
    requires Next(k, step, r) && step.LoadWord?
    ensures step.frame in k.todo
  {
  }

  /** The running task is the boot task or a linked one, so what it runs on has not been freed either. */
  lemma CurrentIsLinked(base: set<nat>, steps: seq<Step>, ks: seq<Kernel>, n: nat)
    requires IsRun(steps, ks) && Coherent(base, ks[0]) && n <= |steps| && HarmlessRun(steps, ks, n)
    ensures |ks[n].sched.queue| > 0 && S.Current(ks[n].sched) != ks[n].sched.reaped
    ensures S.Current(ks[n].sched) == S.BOOT || (S.Current(ks[n].sched) <= MAX_TASKS && Linked(ks[n], S.Current(ks[n].sched) - 1))
  {
    RunConserves(base, steps, ks, n);
    CurrentLinked(base + AllLost(steps, n), ks[n]);
  }

  /** While a reap lasts, what it has still to free is as it was when the task was unlinked. */
  lemma {:induction false} ReapReads(base: set<nat>, steps: seq<Step>, ks: seq<Kernel>, a: nat, n: nat, f: nat)
    requires IsRun(steps, ks) && Coherent(base, ks[0]) && a <= n <= |steps| && HarmlessRun(steps, ks, n) && f in ks[n].todo
    requires forall m :: a <= m < n ==> !steps[m].Unlink?
    ensures f in ks[a].todo && f in ks[n].sys.used && f < |ks[a].sys.mem| && f < |ks[n].sys.mem| && ks[n].sys.mem[f] == ks[a].sys.mem[f]
    decreases n
  {
    hide Next, Coherent;
    RunConserves(base, steps, ks, n);
    KernelFacts(base + AllLost(steps, n), ks[n]);
    if a < n {
      RunConserves(base, steps, ks, n - 1);
      TodoStays(base + AllLost(steps, n - 1), ks[n - 1], steps[n - 1], ks[n], f);
      ReapReads(base, steps, ks, a, n - 1, f);
    }
  }

  /** Until the first of it is freed, the address space of the task being reaped stays whole. */
  lemma {:induction false} ReapedSpaceWhole(base: set<nat>, steps: seq<Step>, ks: seq<Kernel>, a: nat, n: nat, d: nat)
    requires IsRun(steps, ks) && Coherent(base, ks[0]) && a <= n <= |steps| && HarmlessRun(steps, ks, n)
    requires forall m :: a <= m < n ==> !steps[m].Unlink?
    requires ProcOk(ks[a].sys, d) && Owned(ks[a].sys.mem, d) <= ks[n].todo
    ensures ProcOk(ks[n].sys, d) && Owned(ks[n].sys.mem, d) == Owned(ks[a].sys.mem, d) && ks[n].todo <= ks[a].todo
    decreases n
  {
    hide Next, Coherent, ProcOk;
    if a < n {
      TodoShrinks(ks[n - 1], steps[n - 1], ks[n]);
      ReapedSpaceWhole(base, steps, ks, a, n - 1, d);
      RunConserves(base, steps, ks, n - 1);
      SpaceWaits(base + AllLost(steps, n - 1), ks[n - 1], steps[n - 1], ks[n], d);
    }
  }

  lemma TodoShrinks(k: Kernel, step: Step, r: Kernel)
    requires Next(k, step, r) && !step.Unlink?
    ensures r.todo <= k.todo
  {
  }

  // ----- Undisturbed frees

  /** Frees with nothing in between are loads and stores of the boot task, frame by frame. */
  lemma {:induction false} GivesBackRun(base: set<nat>, k: Kernel, fs: set<nat>, r: Kernel) returns (steps: seq<Step>, ks: seq<Kernel>)
    requires Coherent(base, k) && GivesBack(k, fs, r)
    ensures IsRun(steps, ks) && ks[0] == k && ks[|steps|] == r && forall n :: 0 <= n < |steps| ==> steps[n].LoadWord? || steps[n].StoreWord?
    decreases fs
  {
    hide Coherent, Next, WordOf;
    if fs == {} {
      assert k.sys.used - fs == k.sys.used && k.todo - fs == k.todo;
      return [], [k];
    }
    var f :| f in fs;
    var m, j := k.(load := Loaded(f, WordOf(k.sys.used, f))), k.(sys := Released(k.sys, {f}), todo := k.todo - {f});
    GivesBackOne(base, k, f, m, j);
    assert k.sys.used - {f} - (fs - {f}) == k.sys.used - fs && k.todo - {f} - (fs - {f}) == k.todo - fs;
    hide GivesBack;
    var a, ka := GivesBackRun(base, j, fs - {f}, r);
    steps, ks := Join([LoadWord(f), StoreWord], [k, m, j], a, ka);
  }

  lemma GivesBackOne(base: set<nat>, k: Kernel, f: nat, m: Kernel, r: Kernel)
    requires Coherent(base, k) && GivesBack(k, {f}, r) && m == k.(load := Loaded(f, WordOf(k.sys.used, f)))
    ensures Next(k, LoadWord(f), m) && Next(m, StoreWord, r) && Coherent(base, r)
  {
    GivesBackKeeps(base, k, {f}, r);
    hide Coherent;
    var w := WordOf(k.sys.used, f);
    assert k.sys.used - w + (w - {f}) == k.sys.used - {f};
  }

  // ----- The slot being reaped

  lemma FreeHoldsNothing(mem: Phys)
    ensures forall f: nat :: !Holds(mem, FREE, f)
  {
  }

  lemma HeldTwice(mem: Phys, pool: seq<Tcb>, z: nat) returns (f: nat, j: nat)
    requires z < |pool| && Separate(mem, pool[z := FREE]) && !Separate(mem, pool)
    ensures Holds(mem, pool[z], f) && j < |pool| && j != z && Holds(mem, pool[j], f)
  {
    hide Holds;
    var a, b, g: nat :| 0 <= a < |pool| && 0 <= b < |pool| && Holds(mem, pool[a], g) && Holds(mem, pool[b], g) && a != b;
    f, j := g, if a == z then b else a;
    var q := pool[z := FREE];
    assert (a != z ==> q[a] == pool[a]) && (b != z ==> q[b] == pool[b]);
  }

  /**
   While a task is reaped its control block still names what has been freed. No
   frame is named by two control blocks exactly as long as nothing the dead one
   names, apart from what is still to be freed, is in a task's hands again.
   */
  lemma StaleExact(base: set<nat>, k: Kernel)
    requires Coherent(base, k) && k.sched.reaped != -1
    ensures 0 < k.sched.reaped <= |k.pool|
    ensures Separate(k.sys.mem, k.pool) <==>
              forall f: nat :: Holds(k.sys.mem, k.pool[k.sched.reaped - 1], f) && f in k.sys.used ==> f in base + k.todo
  {
    LinkedIs(base, k, 0);
    var z := k.sched.reaped - 1;
    hide S.Inv, SysOk, KernelLow, Holds, Agrees, PassingOk, TodoOk, SlotOk;
    assert Settled(k) == k.pool[z := FREE];
    FreeHoldsNothing(k.sys.mem);
    if Separate(k.sys.mem, k.pool) {
      assert forall j :: 0 <= j < |k.pool| && j != z ==> Settled(k)[j] == k.pool[j];
    } else {
      var f, j := HeldTwice(k.sys.mem, k.pool, z);
      assert Holds(k.sys.mem, Settled(k)[j], f);
      assert f in k.sys.used && f !in base + k.todo;
    }
  }
}
