/**
 Creating, ending and reaping tasks.
 */
module Tasks {
  import opened Machine
  import opened Words
  import opened Pmm
  import opened PagingSpec
  import opened AddressSpace
  import opened Spaces
  import opened SpaceFrames
  import opened ProcessBuild
  import opened UserSpaces
  import opened TaskState
  import opened TaskSpec
  import opened KernelSteps
  import opened KernelRuns
  import opened Sweep
  import opened Paging
  import opened Scheduler
  import S = SchedSpec

  /** The range one page table maps; the code user tasks run is linked below it. */
  const TABLE_SPAN: u32 := 0x40_0000

  const USER_CODE_SEG: u32 := 0x1B
  const USER_DATA_SEG: u32 := 0x23

  /** The bytes of a frame; what a page held before it was allocated is never read as a table again. */
  function Raw(x: Frame): (b: seq<u8>)
    ensures |b| == 4096
  {
    if x.Data? then x.bytes else Zeros(4096)
  }

  /** A page whose top holds `ws`. */
  function StackPage(x: Frame, ws: seq<u32>): (r: Frame)
    requires |ws| <= 1024
    ensures r.Data?
  {
    Data(TopWords(Raw(x), ws))
  }

  /** What the first switch to a kernel task pops, from low to high addresses. */
  function KernelFrame(wrapper: u32, entry: u32): (ws: seq<u32>)
    ensures |ws| == 7
  {
    [0, 0, 0, 0, wrapper, 0, entry]
  }

  /** What the first switch to a user task pops, followed by what iret pops. */
  function UserFrame(enterUsermode: u32, entry: u32, userEsp: u32): (ws: seq<u32>)
    ensures |ws| == 10
  {
    [0, 0, 0, 0, enterUsermode, entry, USER_CODE_SEG, 0x202, userEsp, USER_DATA_SEG]
  }

  /** What the processor will pop from the task's kernel stack: `ws`, from the saved stack pointer up to the end of the page. */
  predicate Stacked(mem: Phys, t: Tcb, ws: seq<u32>) {
    && t.kernelStack < |mem| && mem[t.kernelStack].Data? && t.esp == 4096 * t.kernelStack + 4096 - 4 * |ws| && |ws| <= 1024
    && forall n :: 0 <= n < |ws| ==> WordAt(mem[t.kernelStack].bytes, 4096 - 4 * |ws| + 4 * n) == ws[n]
  }

  lemma StackedPage(mem: Phys, t: Tcb, x: Frame, ws: seq<u32>)
    requires |ws| <= 1024 && t.kernelStack < |mem| && mem[t.kernelStack] == StackPage(x, ws)
    requires t.esp == 4096 * t.kernelStack + 4096 - 4 * |ws|
    ensures Stacked(mem, t, ws)
  {
    forall n | 0 <= n < |ws| ensures WordAt(mem[t.kernelStack].bytes, 4096 - 4 * |ws| + 4 * n) == ws[n] {
      TopWordsAt(Raw(x), ws, n);
    }
  }

  /** The page of the entry function and the one after it. */
  function CodePages(entry: u32): (vs: seq<u32>)
    requires entry + 0x1000 < TABLE_SPAN
  {
    [entry, entry + 0x1000]
  }

  function UserTask(id: u32, k: nat, d: nat, userStack: nat, userEsp: u32): (t: Tcb)
    requires k < TOTAL_FRAMES
  {
    FREE.(id := id, user := true, kernelStack := k, esp := StackTop(k) - 40, pageDir := d,
          userStack := userStack, userStackTop := userEsp)
  }

  /** A user task holds its kernel stack and its address space. */
  lemma UserSpawn(base: set<nat>, s0: Sys, pool: seq<Tcb>, i: nat, r: Sys, d: nat, leak: set<nat>, k: nat, t: Tcb)
    requires WorldOk(base, s0, pool) && i < |pool| && pool[i] == FREE
    requires Building(s0, Dirs(pool), r, d, leak + {k}) && k !in leak && t.kernelStack == k && t.pageDir == d && t.user
    ensures Spawned(s0, pool, i, t, leak, r, pool[i := t])
  {
    ExtraIsForeign(s0, Dirs(pool), r, d, leak + {k}, k);
    DirsGrow(pool, i, t);
    assert ProcOk(r, d);
    forall f: nat ensures f in Held(r.mem, t) <==> f == k || f in Owned(r.mem, d) {
    }
  }

  /** The slot alloc_tcb finds is zeroed to the fields it tests, and the scheduler does not know it. */
  lemma SlotIsFree(base: set<nat>, k: Kernel)
    requires Coherent(base, k)
    ensures |k.pool| == |Settled(k)| == MAX_TASKS && WorldOk(base + k.todo, k.sys, Settled(k))
    ensures (forall f :: f in k.sys.used ==> f < TOTAL_FRAMES) && |k.sys.mem| == TOTAL_FRAMES && base + {} == base
    ensures var i := FreeSlot(k.pool, 0);
            i < MAX_TASKS ==> && k.pool[i] == Half(k.pool[i]) && Settled(k)[i] == FREE && S.Legal(k.sched, S.Create(i + 1))
                              && PoolAfterFail(k, k.pool[i := FREE])
  {
    LinkedIs(base, k, 0);
    hide S.Inv, FreeSlot;
    var i := FreeSlot(k.pool, 0);
    if i < MAX_TASKS {
      LinkedIs(base, k, i);
      CanCreate(base, k, i);
      if !Passing(k, i) {
        ZeroedSlot(base, k, i);
      }
    }
  }

  lemma CanCreate(base: set<nat>, k: Kernel, i: nat)
    requires Coherent(base, k) && i < |k.pool| && k.pool[i].kernelStack == 0
    ensures S.Legal(k.sched, S.Create(i + 1))
  {
    hide WorldOk, TodoOk, PassingOk;
  }

  lemma ZeroedSlot(base: set<nat>, k: Kernel, i: nat)
    requires Coherent(base, k) && i < |k.pool| && k.pool[i].kernelStack == 0 && !Passing(k, i)
    ensures k.pool[i] == FREE && k.pool[i := FREE] == k.pool
  {
    assert SlotOk(k.sys, Settled(k)[i]);
  }

  /** A task that fills a free slot and is linked. */
  lemma SpawnedStep(base: set<nat>, k: Kernel, i: nat, t: Tcb, leak: set<nat>, r: Kernel)
    requires Coherent(base, k) && i < |k.pool| && S.Legal(k.sched, S.Create(i + 1))
    requires Spawned(k.sys, Settled(k), i, t, leak, r.sys, Settled(k)[i := t])
    requires r == Kernel(S.Next(k.sched, S.Create(i + 1)), r.sys, k.pool[i := Over(k.pool[i], t)], k.todo, k.load)
    ensures Next(k, Spawn(i, t, leak), r) && (Coherent(base + leak, r) <==> Harmless(k, Spawn(i, t, leak)))
  {
    StepExact(base, k, Spawn(i, t, leak), r);
  }

  lemma FailedStep(base: set<nat>, k: Kernel, leak: set<nat>, r: Sys, pool: seq<Tcb>)
    requires Coherent(base, k) && Failed(k.sys, Settled(k), leak, r) && PoolAfterFail(k, pool)
    ensures Next(k, Fail(leak), k.(sys := r, pool := pool)) && Coherent(base + leak, k.(sys := r, pool := pool))
  {
    FailStep(base, k, leak, k.(sys := r, pool := pool));
  }

  lemma CanUnlink(base: set<nat>, k: Kernel, i: nat)
    requires Coherent(base, k) && |k.sched.queue| > 0 && S.Current(k.sched) == S.BOOT && k.sched.reaped == -1
    requires k.sched.tail == -1 && Doomed(k, i)
    ensures S.Legal(k.sched, S.Unlink(i + 1)) && i + 1 in k.sched.queue && i < MAX_TASKS
    ensures S.Next(k.sched, S.Unlink(i + 1)).reaped == i + 1
  {
  }

  lemma CanClear(base: set<nat>, k: Kernel)
    requires Coherent(base, k) && |k.sched.queue| > 0 && S.Current(k.sched) == S.BOOT && k.sched.reaped > 0
    ensures S.Legal(k.sched, S.Clear) && k.sched.reaped <= |k.pool| && S.Next(k.sched, S.Clear).tail == k.sched.reaped
    ensures S.Quiet(S.Next(k.sched, S.Clear), S.Finish)
  {
  }

  lemma CanFinish(base: set<nat>, k: Kernel)
    requires Coherent(base, k) && |k.sched.queue| > 0 && S.Current(k.sched) == S.BOOT && k.sched.tail > 0
    ensures S.Legal(k.sched, S.Finish) && k.sched.tail <= |k.pool|
  {
  }

  lemma HoldsParts(base: set<nat>, k: Kernel, i: nat)
    requires Coherent(base, k) && k.sched.reaped == -1 && k.sched.tail == -1 && Doomed(k, i)
    ensures var t := k.pool[i];
            && i < MAX_TASKS && (t.pageDir == 0 ==> t.userStack == 0)
            && (t.pageDir == 0 ==> Held(k.sys.mem, t) == {t.kernelStack})
            && (t.pageDir != 0 ==> Held(k.sys.mem, t) == {t.kernelStack} + Owned(k.sys.mem, t.pageDir)
                                   && t.kernelStack !in Owned(k.sys.mem, t.pageDir)
                                   && ProcOk(Released(k.sys, {t.kernelStack}), t.pageDir))
  {
    assert Settled(k) == k.pool;
    HeldParts(base + k.todo, k.sys, k.pool, i);
  }

  /** The steps of a reap, with nothing in between. */
  lemma StepsReap(k0: Kernel, i: nat, k1: Kernel, k2: Kernel, k3: Kernel, k4: Kernel, k5: Kernel)
    requires Doomed(k0, i) && |k0.pool| == MAX_TASKS && |k0.sched.state| == |k0.sched.live| == S.TASKS && k0.sched.tail == -1
    requires k0.sched.reaped == -1 && Next(k0, Unlink(i), k1) && GivesBack(k1, {k0.pool[i].kernelStack}, k2)
    requires GivesBack(k2, if k0.pool[i].pageDir == 0 then {} else Owned(k0.sys.mem, k0.pool[i].pageDir), k3)
    requires Next(k3, Clear, k4) && Next(k4, Finish, k5) && S.Quiet(k4.sched, S.Finish)
    ensures k5 == Reaped(k0, i)
  {
    hide S.Without, Owned, S.Shape;
    var t := k0.pool[i];
    assert t.kernelStack in Held(k0.sys.mem, t);
    var rest := if t.pageDir == 0 then {} else Owned(k0.sys.mem, t.pageDir);
    assert Held(k0.sys.mem, t) == {t.kernelStack} + rest;
    assert k0.sys.used - {t.kernelStack} - rest == k0.sys.used - Held(k0.sys.mem, t);
    assert Rest(Half(t)) == FREE;
    assert k0.pool[i := Half(t)][i := FREE] == k0.pool[i := FREE];
  }

  lemma ReapedSched(k: Kernel, i: nat)
    requires i < |k.pool| && |k.pool| < |k.sched.live| == |k.sched.state|
    ensures Reaped(k, i).sched.reaped == k.sched.reaped && Reaped(k, i).sched.tail == k.sched.tail
  {
  }

  lemma AllGivenBack(base: set<nat>, k: Kernel, r: Sys, pool: seq<Tcb>)
    requires Coherent(base, k) && r.used == k.sys.used && |r.mem| == |k.sys.mem| && SameBelow(k.sys, r)
    requires SysOk(r, Dirs(Settled(k))) && KernelLow(r) && PoolAfterFail(k, pool)
    ensures Next(k, Fail({}), k.(sys := r, pool := pool)) && Coherent(base, k.(sys := r, pool := pool))
  {
    assert base + {} == base && k.sys.used + {} == r.used;
    FailedStep(base, k, {}, r, pool);
  }

  /** A clone that fails has written no frame in use. */
  lemma CloneFailed(s: Sys, dirs: set<nat>, r: Sys)
    requires SysOk(s, dirs) && KernelLow(s) && |r.mem| == |s.mem| && r.used == s.used && r.kdir == s.kdir && r.tables == s.tables
    requires forall f :: f in r.used && f < |s.mem| ==> r.mem[f] == s.mem[f]
    ensures SameBelow(s, r) && SysOk(r, dirs) && KernelLow(r)
  {
    UnusedWrites(s, dirs, r);
  }

  /** Writing the kernel stack completes the task. */
  lemma UserFinish(base: set<nat>, s0: Sys, pool: seq<Tcb>, i: nat, s: Sys, d: nat, leak: set<nat>, k: nat, x: Frame, t: Tcb)
    requires WorldOk(base, s0, pool) && i < |pool| && pool[i] == FREE && x.Data?
    requires Building(s0, Dirs(pool), s, d, leak + {k}) && k !in leak && t.kernelStack == k && t.pageDir == d && t.user
    ensures k < |s.mem|
    ensures var r := s.(mem := Fill(s.mem, k, x));
            Spawned(s0, pool, i, t, leak, r, pool[i := t]) && WorldOk(base + leak, r, pool[i := t])
  {
    WriteBuilds(s0, Dirs(pool), s, d, leak + {k}, k, x);
    var r := s.(mem := Fill(s.mem, k, x));
    UserSpawn(base, s0, pool, i, r, d, leak, k, t);
    SpawnKeeps(base, s0, pool, i, t, leak, r, pool[i := t]);
  }

  lemma NothingDone(base: set<nat>, k: Kernel, pool: seq<Tcb>)
    requires Coherent(base, k) && PoolAfterFail(k, pool)
    ensures Next(k, Fail({}), k.(pool := pool)) && Coherent(base, k.(pool := pool)) && base + {} == base
  {
    assert forall f :: f in k.sys.used ==> f < |k.sys.mem|;
    assert base + {} == base && k.(sys := k.sys, pool := pool) == k.(pool := pool);
    FailedStep(base, k, {}, k.sys, pool);
  }

  lemma StackTaken(base: set<nat>, s: Sys, pool: seq<Tcb>, k: nat)
    requires WorldOk(base, s, pool) && k < TOTAL_FRAMES
    ensures SysOk(s, Dirs(pool)) && SysOk(s.(used := s.used + {k}), Dirs(pool)) && KernelLow(s.(used := s.used + {k}))
  {
    AllocKeeps(s, Dirs(pool), k);
  }

  class TaskManager {
    const mmu: Mmu
    const queue: Queue
    /** Link-time addresses: the trampolines, and the libc wrappers user tasks call. */
    const taskWrapper: u32
    const enterUsermode: u32
    const wrappers: seq<u32>
    var pool: seq<Tcb>
    var nextTaskId: u32
    /** Frames no task holds, and frames of the task being reaped that are still to be freed. */
    ghost var base: set<nat>
    ghost var todo: set<nat>

    ghost function With(s: Sys): (k: Kernel)
      reads this, queue
    {
      Kernel(queue.Model(), s, pool, todo, Idle)
    }

    ghost function K(): (k: Kernel)
      requires mmu.pmm.bitmap.Length == BITMAP_WORDS
      reads this, queue, mmu, mmu.pmm, mmu.pmm.bitmap
    {
      With(mmu.S())
    }

    predicate WrappersLow()
    {
      forall i :: 0 <= i < |wrappers| ==> wrappers[i] < TABLE_SPAN
    }

    ghost predicate Valid()
      reads this, queue, mmu, mmu.pmm, mmu.pmm.bitmap
    {
      mmu.Ready() && queue.Valid() && Coherent(base, K()) && WrappersLow()
    }

    constructor (mmu: Mmu, taskWrapper: u32, enterUsermode: u32, wrappers: seq<u32>)
      requires mmu.Ready() && SysOk(mmu.S(), {}) && KernelLow(mmu.S())
      requires forall i :: 0 <= i < |wrappers| ==> wrappers[i] < TABLE_SPAN
      ensures Valid() && fresh(queue) && this.mmu == mmu && base == mmu.pmm.Used()
      ensures K() == Kernel(S.Initial(), mmu.S(), pool, {}, Idle) && |pool| == 64 && forall i :: 0 <= i < 64 ==> pool[i] == FREE
    {
      this.mmu, this.taskWrapper, this.enterUsermode, this.wrappers := mmu, taskWrapper, enterUsermode, wrappers;
      queue := new Queue();
      pool, nextTaskId, base, todo := seq(MAX_TASKS, _ => FREE), 0, mmu.pmm.Used(), {};
      new;
      hide Coherent, S.Initial, SysOk, KernelLow, FrameAllocator.Valid;
      BootCoherent(mmu.S(), pool);
    }

    method AllocTcb() returns (i: nat)
      ensures i == FreeSlot(pool, 0)
    {
      i := 0;
      while i < |pool|
        invariant i <= |pool| && FreeSlot(pool, 0) == FreeSlot(pool, i)
      {
        if pool[i].id == 0 && pool[i].kernelStack == 0 {
          return;
        }
        i := i + 1;
      }
    }

    /** Stores `w` just below the words already on the stack page `k`. */
    method Push(k: nat, sp: nat, w: u32, ghost x: Frame, ghost ws: seq<u32>) returns (sp': nat)
      requires mmu.Ready() && k < TOTAL_FRAMES && |ws| < 1024
      requires mmu.mem[k] == StackPage(x, ws) && sp == 4096 - 4 * |ws|
      modifies mmu`mem
      ensures mmu.Ready() && mmu.mem == Fill(old(mmu.mem), k, StackPage(x, [w] + ws)) && sp' == sp - 4
    {
      sp' := sp - 4;
      PushTop(Raw(x), ws, w);
      mmu.mem := Fill(mmu.mem, k, Data(PutWord(mmu.mem[k].bytes, sp', w)));
    }

    /** What task_switch pops: four zeroed registers below the address it returns to. */
    method PushSwitchFrame(k: nat, sp: nat, ret: u32, ghost x: Frame, ghost ws: seq<u32>) returns (sp': nat)
      requires mmu.Ready() && k < TOTAL_FRAMES && |ws| < 1000
      requires mmu.mem[k] == StackPage(x, ws) && sp == 4096 - 4 * |ws|
      modifies mmu`mem
      ensures mmu.Ready() && mmu.mem == Fill(old(mmu.mem), k, StackPage(x, [0, 0, 0, 0, ret] + ws)) && sp' == sp - 20
    {
      hide StackPage;
      sp' := Push(k, sp, ret, x, ws);
      sp' := Push(k, sp', 0, x, [ret] + ws);
      sp' := Push(k, sp', 0, x, [0] + ([ret] + ws));
      sp' := Push(k, sp', 0, x, [0] + ([0] + ([ret] + ws)));
      sp' := Push(k, sp', 0, x, [0] + ([0] + ([0] + ([ret] + ws))));
      assert [0] + ([0] + ([0] + ([0] + ([ret] + ws)))) == [0, 0, 0, 0, ret] + ws;
    }

    /** The frame that makes the first switch enter the task wrapper. */
    method PushKernelFrame(k: nat, entry: u32) returns (sp: nat)
      requires mmu.Ready() && k < TOTAL_FRAMES
      modifies mmu`mem
      ensures mmu.Ready() && mmu.mem == Fill(old(mmu.mem), k, StackPage(old(mmu.mem[k]), KernelFrame(taskWrapper, entry)))
      ensures sp == 4096 - 28
    {
      hide StackPage;
      ghost var x := mmu.mem[k];
      mmu.mem := Fill(mmu.mem, k, StackPage(mmu.mem[k], []));
      sp := Push(k, 4096, entry, x, []);
      sp := Push(k, sp, 0, x, [entry] + []);
      sp := PushSwitchFrame(k, sp, taskWrapper, x, [0] + ([entry] + []));
      assert [0, 0, 0, 0, taskWrapper] + ([0] + ([entry] + [])) == KernelFrame(taskWrapper, entry);
    }

    /** The frame that makes the first switch enter Ring 3. */
    method PushUserFrame(k: nat, entry: u32, userEsp: u32) returns (sp: nat)
      requires mmu.Ready() && k < TOTAL_FRAMES
      modifies mmu`mem
      ensures mmu.Ready()
      ensures mmu.mem == Fill(old(mmu.mem), k, StackPage(old(mmu.mem[k]), UserFrame(enterUsermode, entry, userEsp)))
      ensures sp == 4096 - 40
    {
      hide StackPage;
      ghost var x := mmu.mem[k];
      mmu.mem := Fill(mmu.mem, k, StackPage(mmu.mem[k], []));
      sp := Push(k, 4096, USER_DATA_SEG, x, []);
      sp := Push(k, sp, userEsp, x, [USER_DATA_SEG] + []);
      sp := Push(k, sp, 0x202, x, [userEsp] + ([USER_DATA_SEG] + []));
      sp := Push(k, sp, USER_CODE_SEG, x, [0x202] + ([userEsp] + ([USER_DATA_SEG] + [])));
      sp := Push(k, sp, entry, x, [USER_CODE_SEG] + ([0x202] + ([userEsp] + ([USER_DATA_SEG] + []))));
      ghost var iret := [entry] + ([USER_CODE_SEG] + ([0x202] + ([userEsp] + ([USER_DATA_SEG] + []))));
      sp := PushSwitchFrame(k, sp, enterUsermode, x, iret);
      assert [0, 0, 0, 0, enterUsermode] + iret == UserFrame(enterUsermode, entry, userEsp);
    }

    /** Fills slot `i` with a kernel task, once its stack `k` is allocated, and links it. */
    method StartKernel(i: nat, k: nat, entry: u32, ghost k0: Kernel)
      requires mmu.Ready() && queue.Valid() && Coherent(base, k0) && i == FreeSlot(k0.pool, 0) < MAX_TASKS && k < TOTAL_FRAMES
      requires k !in k0.sys.used && mmu.S() == k0.sys.(used := k0.sys.used + {k}) && k0 == With(k0.sys).(pool := k0.pool)
      requires |k0.pool| == MAX_TASKS && pool == k0.pool[i := k0.pool[i].(id := nextTaskId)] && WrappersLow()
      modifies this`pool, mmu`mem, queue
      ensures mmu.Ready() && |pool| == MAX_TASKS && pool[i].kernelStack == k && Next(k0, Spawn(i, KernelTask(nextTaskId, k), {}), K())
      ensures Valid() <==> Harmless(k0, Spawn(i, KernelTask(nextTaskId, k), {}))
      ensures mmu.mem == Fill(old(mmu.mem), k, StackPage(old(mmu.mem)[k], KernelFrame(taskWrapper, entry)))
      ensures Stacked(mmu.mem, pool[i], [0, 0, 0, 0, taskWrapper, 0, entry])
    {
      hide Coherent, StackPage, FrameAllocator.Valid, Queue.Valid, S.Legal, S.Next, Next, Settled, Harmless, FreeSlot, Stacked;
      SlotIsFree(base, k0);
      var sp := PushKernelFrame(k, entry);
      pool := pool[i := pool[i].(kernelStack := k, esp := 4096 * k + sp)];
      KernelSpawns(base, k0, i, nextTaskId, k, mmu.mem[k]);
      StackedPage(mmu.mem, pool[i], old(mmu.mem)[k], KernelFrame(taskWrapper, entry));
      queue.AddTask(i + 1);
      assert pool == k0.pool[i := Over(k0.pool[i], KernelTask(nextTaskId, k))];
      assert K() == AfterSpawn(k0, i, nextTaskId, k, mmu.mem[k]);
    }

    /**
     Spawns a kernel task in the first free slot and links it; MAX_TASKS stands for
     NULL. The fields of user tasks are left as they are, which matters in a slot
     that is still being zeroed.
     */
    method Create(entry: u32) returns (i: nat)
      requires Valid()
      modifies this, queue, mmu, mmu.pmm, mmu.pmm.bitmap
      ensures base == old(base)
      ensures i < MAX_TASKS <==> FreeSlot(old(pool), 0) < MAX_TASKS && old(mmu.pmm.usedFrames) < TOTAL_FRAMES
      ensures i >= MAX_TASKS ==> Valid() && Next(old(K()), Fail({}), K()) && K() == old(K()).(pool := pool)
      ensures i < MAX_TASKS ==> && i == FreeSlot(old(pool), 0) && i < |pool| && mmu.Ready() && pool[i].kernelStack < TOTAL_FRAMES
                                && var t := KernelTask(nextTaskId, pool[i].kernelStack);
                                   Next(old(K()), Spawn(i, t, {}), K()) && (Valid() <==> Harmless(old(K()), Spawn(i, t, {})))
      ensures i < MAX_TASKS ==> Stacked(mmu.mem, pool[i], [0, 0, 0, 0, taskWrapper, 0, entry])
    {
      hide Coherent, WorldOk, Spawned, StackPage, KernelFrame, FreeSlot, UsedSet, Reserved, Full, Lowest, IsReserved;
      hide FrameAllocator.Valid, Queue.Valid, S.Legal, S.Next, Next, Settled, PoolAfterFail, Harmless, Stacked;
      ghost var k0 := K();
      SlotIsFree(base, k0);
      i := AllocTcb();
      if i == MAX_TASKS {
        NothingDone(base, k0, pool);
        return;
      }
      nextTaskId := Wrap32(nextTaskId + 1);
      pool := pool[i := pool[i].(id := nextTaskId)];
      var k := mmu.AllocFrame();
      if k == 0 {
        pool := pool[i := FREE];
        assert pool == old(pool)[i := FREE];
        NothingDone(base, k0, pool);
        return MAX_TASKS;
      }
      StartKernel(i, k, entry, k0);
    }

    /** Opens the page of a function to the process. */
    method MapUserPage(d: nat, addr: u32, ghost s0: Sys, ghost dirs: set<nat>, ghost vs: seq<u32>)
      requires mmu.Ready() && Preparing(s0, dirs, mmu.S(), d, vs) && addr < TABLE_SPAN
      modifies mmu, mmu.pmm, mmu.pmm.bitmap
      ensures mmu.Ready() && Preparing(s0, dirs, mmu.S(), d, vs + [addr]) && mmu.pmm.usedFrames == old(mmu.pmm.usedFrames)
    {
      hide Preparing, SlotReady, MapIn;
      assert PdIndex(addr) == 0;
      PrepareCode(s0, dirs, mmu.S(), d, vs, addr);
      var page := addr - addr % 4096;
      PageIndices(page, addr);
      mmu.MapPageIn(d, page, page / 4096, true, true);
    }

    /** Clones the kernel directory, opens the code pages and gives the process a stack page. */
    method BuildUserSpace(entry: u32, ghost dirs: set<nat>) returns (ok: bool, d: nat, u: nat)
      requires mmu.Ready() && SysOk(mmu.S(), dirs) && KernelLow(mmu.S())
      requires entry + 0x1000 < TABLE_SPAN
      requires forall i :: 0 <= i < |wrappers| ==> wrappers[i] < TABLE_SPAN
      modifies mmu, mmu.pmm, mmu.pmm.bitmap
      ensures mmu.Ready()
      ensures ok <==> old(mmu.pmm.usedFrames) + 3 <= TOTAL_FRAMES
      ensures ok && old(mmu.pmm.usedFrames) + 3 < TOTAL_FRAMES ==>
                && Building(old(mmu.S()), dirs, mmu.S(), d, {})
                && UserSpace(mmu.mem, d, CodePages(entry) + wrappers, u, true)
      ensures ok && old(mmu.pmm.usedFrames) + 3 == TOTAL_FRAMES ==>
                && Building(old(mmu.S()), dirs, mmu.S(), d, {u})
                && UserSpace(mmu.mem, d, CodePages(entry) + wrappers, u, false)
      ensures !ok ==> && mmu.pmm.Used() == old(mmu.pmm.Used()) && SameBelow(old(mmu.S()), mmu.S())
                      && SysOk(mmu.S(), dirs) && KernelLow(mmu.S())
    {
      hide Preparing, SysOk, KernelLow, Building, UserSpace, SameBelow, Cloned, KernelTableZero, Full, Placed, CanPlace, SlotReady;
      ghost var s0 := mmu.S();
      ghost var p;
      ok, d, p := mmu.CloneDirectory();
      u := 0;
      if !ok {
        CloneFailed(s0, dirs, mmu.S());
        return;
      }
      CloneStarts(s0, dirs, d, p);
      MapCodePages(d, entry, s0, dirs);
      ghost var vs := CodePages(entry) + wrappers;
      ghost var s := mmu.S();
      PreparedStackFree(s0, dirs, s, d, vs);
      u := mmu.PlacePage(d, USER_STACK_VIRT, ZeroPage(), true, s0, dirs, {});
      if u == 0 {
        TearDown(s0, dirs, s, d, {});
        mmu.FreeDirectory(d);
        return false, 0, 0;
      }
      PrepareStack(s0, dirs, s, d, vs, u);
    }

    method MapCodePages(d: nat, entry: u32, ghost s0: Sys, ghost dirs: set<nat>)
      requires mmu.Ready() && Preparing(s0, dirs, mmu.S(), d, [])
      requires entry + 0x1000 < TABLE_SPAN
      requires forall i :: 0 <= i < |wrappers| ==> wrappers[i] < TABLE_SPAN
      modifies mmu, mmu.pmm, mmu.pmm.bitmap
      ensures mmu.Ready() && mmu.pmm.usedFrames == old(mmu.pmm.usedFrames)
      ensures Preparing(s0, dirs, mmu.S(), d, CodePages(entry) + wrappers)
    {
      hide Preparing;
      MapUserPage(d, entry, s0, dirs, []);
      MapUserPage(d, entry + 0x1000, s0, dirs, [] + [entry]);
      var i := 0;
      assert [] + [entry] + [entry + 0x1000] == CodePages(entry) + wrappers[..0];
      while i < |wrappers|
        invariant 0 <= i <= |wrappers| && mmu.Ready() && mmu.pmm.usedFrames == old(mmu.pmm.usedFrames)
        invariant Preparing(s0, dirs, mmu.S(), d, CodePages(entry) + wrappers[..i])
      {
        MapUserPage(d, wrappers[i], s0, dirs, CodePages(entry) + wrappers[..i]);
        assert CodePages(entry) + wrappers[..i] + [wrappers[i]] == CodePages(entry) + wrappers[..i + 1];
        i := i + 1;
      }
      assert wrappers[..i] == wrappers;
    }

    /** Fills slot `i` with a user task around directory `d`, once its kernel stack `k` is allocated, and links it. */
    method StartUser(i: nat, k: nat, d: nat, userStack: nat, entry: u32, userEsp: u32, ghost k0: Kernel, ghost leak: set<nat>)
      requires mmu.Ready() && queue.Valid() && Coherent(base, k0) && i == FreeSlot(k0.pool, 0) < MAX_TASKS && k < TOTAL_FRAMES
      requires Building(k0.sys, Dirs(Settled(k0)), mmu.S(), d, leak + {k}) && k !in leak && k0 == With(k0.sys).(pool := k0.pool)
      requires |k0.pool| == MAX_TASKS && pool == k0.pool[i := k0.pool[i].(id := nextTaskId, user := true)]
      modifies this`pool, this`base, mmu`mem, queue
      ensures mmu.Ready() && queue.Valid() && Coherent(base, K()) && base == old(base) + leak
      ensures |pool| == MAX_TASKS && pool[i] == UserTask(nextTaskId, k, d, userStack, userEsp)
      ensures Next(k0, Spawn(i, pool[i], leak), K())
      ensures mmu.mem == Fill(old(mmu.mem), k, StackPage(old(mmu.mem)[k], UserFrame(enterUsermode, entry, userEsp)))
      ensures Stacked(mmu.mem, pool[i], [0, 0, 0, 0, enterUsermode, entry, 0x1B, 0x202, userEsp, 0x23])
    {
      hide Coherent, WorldOk, Building, Spawned, StackPage, Stacked, FrameAllocator.Valid, Queue.Valid, S.Legal, S.Next;
      hide Next, Settled;
      ghost var s := mmu.S();
      SlotIsFree(base, k0);
      var sp := PushUserFrame(k, entry, userEsp);
      pool := pool[i := pool[i].(kernelStack := k, pageDir := d, userStack := userStack, userStackTop := userEsp,
                                 esp := 4096 * k + sp)];
      StackedPage(mmu.mem, pool[i], old(mmu.mem)[k], UserFrame(enterUsermode, entry, userEsp));
      UserFinish(base + todo, k0.sys, Settled(k0), i, s, d, leak, k, mmu.mem[k], pool[i]);
      queue.AddTask(i + 1);
      assert pool == k0.pool[i := Over(k0.pool[i], pool[i])];
      SpawnedStep(base, k0, i, pool[i], leak, K());
      base := base + leak;
    }

    /** Builds the address space of the task in slot `i`, whose kernel stack is `k`, and starts it; or gives all back. */
    method FillUser(i: nat, k: nat, entry: u32, ghost k0: Kernel) returns (ok: bool, ghost leak: set<nat>)
      requires mmu.Ready() && queue.Valid() && Coherent(base, k0) && i == FreeSlot(k0.pool, 0) < MAX_TASKS
      requires entry + 0x1000 < TABLE_SPAN && WrappersLow() && k < TOTAL_FRAMES && !IsReserved(k) && k !in k0.sys.used
      requires mmu.S() == k0.sys.(used := k0.sys.used + {k}) && k0 == With(k0.sys).(pool := k0.pool)
      requires |k0.pool| == MAX_TASKS && pool == k0.pool[i := k0.pool[i].(id := nextTaskId, user := true)]
      modifies this`pool, this`base, queue, mmu, mmu.pmm, mmu.pmm.bitmap
      ensures mmu.Ready() && queue.Valid() && Coherent(base, K()) && base == old(base) + leak
      ensures ok <==> old(mmu.pmm.usedFrames) + 3 <= TOTAL_FRAMES
      ensures !ok ==> leak == {} && Next(k0, Fail({}), K())
      ensures ok ==> && |pool| == MAX_TASKS && Next(k0, Spawn(i, pool[i], leak), K())
                     && (leak == {} <==> old(mmu.pmm.usedFrames) + 3 != TOTAL_FRAMES)
                     && pool[i] == UserTask(nextTaskId, k, pool[i].pageDir, pool[i].userStack, USER_STACK_TOP)
                     && Stacked(mmu.mem, pool[i], [0, 0, 0, 0, enterUsermode, entry, 0x1B, 0x202, 0xC000_0000, 0x23])
                     && UserSpace(mmu.mem, pool[i].pageDir, CodePages(entry) + wrappers, pool[i].userStack, leak == {})
    {
      hide Coherent, Building, UserSpace, FreeSlot, SameBelow, SysOk, KernelLow, Settled, Next, UsedSet, Reserved, Stacked;
      hide IsReserved, FrameAllocator.Valid, Queue.Valid;
      ghost var s0, dirs := k0.sys, Dirs(Settled(k0));
      leak := {};
      SlotIsFree(base, k0);
      StackTaken(base + todo, s0, Settled(k0), k);
      var d, u;
      ok, d, u := BuildUserSpace(entry, dirs);
      if !ok {
        ghost var r := mmu.S();
        GiveBack(s0, dirs, k, r);
        mmu.FreeFrame(k);
        pool := pool[i := FREE];
        assert pool == k0.pool[i := FREE];
        AllGivenBack(base, k0, mmu.S(), pool);
        return;
      }
      leak := if old(mmu.pmm.usedFrames) + 3 == TOTAL_FRAMES then {u} else {};
      BuildEarlier(s0, dirs, mmu.S(), d, leak, k);
      ghost var s := mmu.S();
      StartUser(i, k, d, u, entry, USER_STACK_TOP, k0, leak);
      SpaceWritten(s0, dirs, s, d, leak + {k}, k, mmu.mem[k], CodePages(entry) + wrappers, u, leak == {});
    }

    /**
     Spawns a Ring 3 task. Its pages are exactly the code pages and the stack. With
     exactly four frames free the stack page is taken but never mapped, and lost.
     */
    method CreateUser(entry: u32) returns (i: nat, ghost leak: set<nat>)
      requires Valid() && entry + 0x1000 < TABLE_SPAN
      modifies this, queue, mmu, mmu.pmm, mmu.pmm.bitmap
      ensures Valid() && base == old(base) + leak
      ensures i < MAX_TASKS <==> FreeSlot(old(pool), 0) < MAX_TASKS && old(mmu.pmm.usedFrames) + 4 <= TOTAL_FRAMES
      ensures i >= MAX_TASKS ==> leak == {} && Next(old(K()), Fail({}), K())
      ensures i < MAX_TASKS ==>
                && i == FreeSlot(old(pool), 0) && i < |pool| && Next(old(K()), Spawn(i, pool[i], leak), K())
                && (leak == {} <==> old(mmu.pmm.usedFrames) + 4 != TOTAL_FRAMES)
                && pool[i].kernelStack < TOTAL_FRAMES
                && pool[i] == UserTask(nextTaskId, pool[i].kernelStack, pool[i].pageDir, pool[i].userStack, USER_STACK_TOP)
                && Stacked(mmu.mem, pool[i], [0, 0, 0, 0, enterUsermode, entry, 0x1B, 0x202, 0xC000_0000, 0x23])
                && UserSpace(mmu.mem, pool[i].pageDir, CodePages(entry) + wrappers, pool[i].userStack, leak == {})
    {
      hide Coherent, UserSpace, FreeSlot, Settled, Next, Stacked;
      hide UsedSet, Reserved, Full, Lowest, IsReserved, FrameAllocator.Valid, Queue.Valid, S.Legal, S.Next;
      ghost var k0 := K();
      leak := {};
      SlotIsFree(base, k0);
      i := AllocTcb();
      if i == MAX_TASKS {
        NothingDone(base, k0, pool);
        return;
      }
      nextTaskId := Wrap32(nextTaskId + 1);
      pool := pool[i := pool[i].(id := nextTaskId, user := true)];
      var k := mmu.AllocFrame();
      if k == 0 {
        pool := pool[i := FREE];
        assert pool == old(pool)[i := FREE];
        NothingDone(base, k0, pool);
        return MAX_TASKS, {};
      }
      var ok;
      ok, leak := FillUser(i, k, entry, k0);
      if !ok {
        return MAX_TASKS, {};
      }
    }

    /** Spawns a Ring 3 task around a directory its caller has built from `s0`. */
    method CreateUserMapped(entry: u32, d: nat, userEsp: u32, ghost s0: Sys, ghost leak: set<nat>)
      returns (i: nat)
      requires mmu.Ready() && queue.Valid() && Coherent(base, With(s0)) && Building(s0, Dirs(Settled(With(s0))), mmu.S(), d, leak)
      modifies this, queue, mmu, mmu.pmm, mmu.pmm.bitmap
      ensures mmu.Ready() && queue.Valid()
      ensures i < MAX_TASKS <==> FreeSlot(old(pool), 0) < MAX_TASKS && old(mmu.pmm.usedFrames) < TOTAL_FRAMES
      ensures i >= MAX_TASKS ==> K() == old(K()).(pool := pool) && PoolAfterFail(old(With(s0)), pool) && base == old(base)
      ensures i < MAX_TASKS ==>
                && i == FreeSlot(old(pool), 0) && i < |pool| && Coherent(base, K()) && base == old(base) + leak
                && Next(old(With(s0)), Spawn(i, pool[i], leak), K())
                && pool[i].kernelStack < TOTAL_FRAMES && pool[i].kernelStack !in old(mmu.pmm.Used())
                && pool[i] == UserTask(nextTaskId, pool[i].kernelStack, d, 0, userEsp)
                && mmu.mem == Fill(old(mmu.mem), pool[i].kernelStack,
                                   StackPage(old(mmu.mem)[pool[i].kernelStack], UserFrame(enterUsermode, entry, userEsp)))
                && Stacked(mmu.mem, pool[i], [0, 0, 0, 0, enterUsermode, entry, 0x1B, 0x202, userEsp, 0x23])
    {
      hide Coherent, WorldOk, Building, Spawned, FreeSlot, StackPage, UserFrame, Settled, Next, Stacked;
      hide UsedSet, Reserved, Full, Lowest, IsReserved, FrameAllocator.Valid, Queue.Valid, S.Legal, S.Next;
      ghost var s, k0 := mmu.S(), With(s0);
      SlotIsFree(base, k0);
      i := AllocTcb();
      if i == MAX_TASKS {
        return;
      }
      nextTaskId := Wrap32(nextTaskId + 1);
      pool := pool[i := pool[i].(id := nextTaskId, user := true)];
      var k := mmu.AllocFrame();
      if k == 0 {
        pool := pool[i := FREE];
        assert pool == old(pool)[i := FREE];
        return MAX_TASKS;
      }
      BuildTaken(s0, Dirs(Settled(k0)), s, d, leak, k);
      StartUser(i, k, d, 0, entry, userEsp, k0, leak);
    }

    /** task_exit: the running task dies and yields to another; its frames stay until it is reaped. */
    method Exit()
      requires Valid() && queue.current != S.BOOT
      modifies queue
      ensures Valid() && queue.current != old(queue.current)
      ensures S.Legal(old(queue.Model()), S.Exit)
      ensures var dead := S.Next(old(queue.Model()), S.Exit);
              S.Legal(dead, S.Yield) && queue.Model() == S.Next(dead, S.Yield)
    {
      hide Coherent, S.Next, S.Legal, S.Inv, S.PickAt;
      ghost var k0 := K();
      S.ExitLeaves(queue.Model());
      assert base + Lost(Event(S.Exit)) == base + Lost(Event(S.Yield)) == base;
      queue.Exit();
      ghost var k1 := K();
      StepKeeps(base, k0, Event(S.Exit), k1);
      queue.Yield();
      StepKeeps(base, k1, Event(S.Yield), K());
    }

    // ----- Reaping, one step at a time

    /** Unlinks the dead task in slot `i`. */
    method Retire(i: nat)
      requires Valid() && queue.current == S.BOOT && queue.reaped == -1 && queue.tail == -1 && Doomed(K(), i)
      modifies queue, this`todo
      ensures Valid() && Next(old(K()), Unlink(i), K()) && queue.current == S.BOOT
      ensures queue.reaped == i + 1 && todo == Held(mmu.mem, pool[i])
    {
      hide Coherent, S.Next, S.Inv, Links;
      ghost var k0 := K();
      KernelFacts(base, k0);
      CanUnlink(base, k0, i);
      queue.RemoveTask(i + 1);
      todo := Held(mmu.mem, pool[i]);
      UnlinkStep(base, k0, i, K());
    }

    /** Frees the kernel stack of the task being reaped. */
    method FreeStack(i: nat)
      requires Valid() && queue.current == S.BOOT && queue.reaped == i + 1 && i < MAX_TASKS && pool[i].kernelStack in todo
      modifies mmu.pmm, mmu.pmm.bitmap, this`todo
      ensures Valid() && GivesBack(old(K()), {pool[i].kernelStack}, K())
      ensures mmu.S() == Released(old(mmu.S()), {pool[i].kernelStack}) && todo == old(todo) - {pool[i].kernelStack}
    {
      hide Coherent, S.Inv, FrameAllocator.Valid;
      ghost var k0 := K();
      KernelFacts(base, k0);
      mmu.FreeFrame(pool[i].kernelStack);
      todo := todo - {pool[i].kernelStack};
      GivesBackKeeps(base, k0, {pool[i].kernelStack}, K());
    }

    /** Frees the address space of the task being reaped, if it has one. */
    method FreeSpace(i: nat)
      requires Valid() && queue.current == S.BOOT && queue.reaped == i + 1 && i < MAX_TASKS
      requires pool[i].pageDir == 0 ==> pool[i].userStack == 0
      requires pool[i].pageDir != 0 ==> ProcOk(mmu.S(), pool[i].pageDir) && Owned(mmu.mem, pool[i].pageDir) <= todo
      modifies mmu.pmm, mmu.pmm.bitmap, this`todo
      ensures Valid()
      ensures GivesBack(old(K()), if pool[i].pageDir == 0 then {} else Owned(mmu.mem, pool[i].pageDir), K())
      ensures todo == old(todo) - if pool[i].pageDir == 0 then {} else Owned(mmu.mem, pool[i].pageDir)
    {
      hide Coherent, S.Inv, FrameAllocator.Valid, ProcOk;
      ghost var k0 := K();
      KernelFacts(base, k0);
      if pool[i].pageDir != 0 {
        mmu.FreeDirectory(pool[i].pageDir);
        todo := todo - Owned(mmu.mem, pool[i].pageDir);
        GivesBackKeeps(base, k0, Owned(mmu.mem, pool[i].pageDir), K());
      } else if pool[i].userStack != 0 {
        assert false;  // every user task has a directory of its own
      }
    }

    /** Zeroes the slot up to the stack pointer, the last of the fields that mark it free. */
    method ClearHead(i: nat)
      requires Valid() && queue.current == S.BOOT && queue.reaped == i + 1 && i < MAX_TASKS && todo == {}
      modifies queue, this`pool
      ensures Valid() && Next(old(K()), Clear, K()) && queue.current == S.BOOT && queue.tail == i + 1
      ensures S.Quiet(queue.Model(), S.Finish)
    {
      hide Coherent, S.Next, S.Inv, Links;
      ghost var k0 := K();
      KernelFacts(base, k0);
      CanClear(base, k0);
      pool := pool[i := pool[i].(id := 0, esp := 0, kernelStack := 0)];
      queue.ClearHead(i + 1);
      ClearStep(base, k0, K());
    }

    /** Zeroes the rest of it: harmless unless a task has been created there meanwhile. */
    method ClearTail(i: nat)
      requires Valid() && queue.current == S.BOOT && queue.tail == i + 1 && i < MAX_TASKS
      modifies queue, this`pool
      ensures Next(old(K()), Finish, K()) && queue.current == S.BOOT
      ensures Valid() <==> Harmless(old(K()), Finish)
    {
      hide Coherent, S.Next, S.Inv, Links;
      ghost var k0 := K();
      KernelFacts(base, k0);
      CanFinish(base, k0);
      pool := pool[i := pool[i].(user := false, userStack := 0, userStackTop := 0, pageDir := 0)];
      queue.ClearTail(i + 1);
      FinishStep(base, k0, K());
    }

    method ReapOne(i: nat)
      requires Valid() && queue.current == S.BOOT && queue.reaped == -1 && queue.tail == -1 && Doomed(K(), i)
      modifies this, queue, mmu.pmm, mmu.pmm.bitmap
      ensures Valid() && base == old(base) && queue.current == S.BOOT && queue.reaped == -1 && queue.tail == -1
      ensures K() == Reaped(old(K()), i)
    {
      hide Coherent, FrameAllocator.Valid, Queue.Valid, ProcOk, Next, GivesBack, Owned, Held, Reaped, S.Quiet;
      ghost var k0 := K();
      KernelFacts(base, k0);
      HoldsParts(base, k0, i);
      Retire(i);
      ghost var k1 := K();
      FreeStack(i);
      ghost var k2 := K();
      FreeSpace(i);
      ghost var k3 := K();
      ClearHead(i);
      ghost var k4 := K();
      ClearTail(i);
      StepsReap(k0, i, k1, k2, k3, k4, K());
      ReapedSched(k0, i);
    }

    /** Reaps every dead task: all frames they held come back, and nothing else does. */
    method ReapAll()
      requires Valid() && queue.current == S.BOOT && queue.reaped == -1 && queue.tail == -1
      modifies this, queue, mmu, mmu.pmm, mmu.pmm.bitmap
      ensures Valid() && base == old(base) && queue.current == S.BOOT && queue.reaped == -1 && queue.tail == -1
      ensures SweptTo(old(K()), MAX_TASKS, K()) && forall i: nat :: !Doomed(K(), i)
    {
      hide Coherent, FrameAllocator.Valid, Queue.Valid, SweptTo, S.Inv;
      ghost var k0 := K();
      SweepStarts(base, k0);
      KernelFacts(base, k0);
      var i := 0;
      while i < MAX_TASKS
        invariant i <= MAX_TASKS && Valid() && base == old(base) && queue.current == S.BOOT && queue.reaped == -1 && queue.tail == -1
        invariant |pool| == MAX_TASKS && |queue.state| == S.TASKS && SweptTo(k0, i, K())
      {
        KernelFacts(base, K());
        if queue.state[i + 1] == Dead && pool[i].kernelStack != 0 {
          SweepTakes(k0, i, K());
          ReapOne(i);
        } else {
          SweepSkips(k0, i, K());
        }
        KernelFacts(base, K());
        i := i + 1;
      }
      SweepEnds(base, k0, K());
    }
  }
}
