/**
 The task pool and the frames its tasks hold.
 */
module TaskSpec {
  import opened Machine
  import opened Pmm
  import opened PagingSpec
  import opened AddressSpace
  import opened Spaces
  import opened SpaceFrames
  import opened ProcessBuild

  const MAX_TASKS: nat := 64

  /** A task control block but for its scheduling state and link; stack and directory are frame numbers, 0 being NULL. */
  datatype Tcb = Tcb(id: u32, user: bool, kernelStack: nat, userStack: nat, userStackTop: u32, pageDir: nat, esp: u32)

  /** A zeroed control block. */
  const FREE: Tcb := Tcb(0, false, 0, 0, 0, 0, 0)

  function StackTop(k: nat): (a: nat) {
    4096 * k + 4096
  }

  /** What task_create makes of a zeroed slot: a task on stack `k`, its first frame of seven words on it. */
  function KernelTask(id: u32, k: nat): (t: Tcb)
    requires k < TOTAL_FRAMES
  {
    FREE.(id := id, kernelStack := k, esp := StackTop(k) - 28)
  }

  /** The test alloc_tcb uses. */
  predicate IsFree(t: Tcb) {
    t.id == 0 && t.kernelStack == 0
  }

  /** The first free slot of the pool, or its size. */
  function FreeSlot(pool: seq<Tcb>, i: nat): (k: nat)
    requires i <= |pool|
    ensures i <= k <= |pool| && (forall l :: i <= l < k ==> !IsFree(pool[l])) && (k < |pool| ==> IsFree(pool[k]))
    decreases |pool| - i
  {
    if i == |pool| || IsFree(pool[i]) then i else FreeSlot(pool, i + 1)
  }

  predicate HoldsStack(t: Tcb, f: nat) {
    t.kernelStack != 0 && f == t.kernelStack
  }

  ghost predicate HoldsSpace(mem: Phys, t: Tcb, f: nat) {
    t.pageDir != 0 && f < |mem| && Owns(mem, t.pageDir, f)
  }

  /** A frame the task gives back when it is reaped: its kernel stack, or part of its address space. */
  ghost predicate Holds(mem: Phys, t: Tcb, f: nat) {
    HoldsStack(t, f) || HoldsSpace(mem, t, f)
  }

  ghost function Held(mem: Phys, t: Tcb): (fs: set<nat>)
    ensures forall f: nat :: f in fs <==> f < |mem| + t.kernelStack + 1 && Holds(mem, t, f)
  {
    set f: nat | f < |mem| + t.kernelStack + 1 && Holds(mem, t, f)
  }

  ghost function Dirs(pool: seq<Tcb>): (ds: set<nat>)
    ensures forall d :: d in ds <==> d != 0 && exists i :: 0 <= i < |pool| && pool[i].pageDir == d
  {
    set i: nat | i < |pool| && pool[i].pageDir != 0 :: pool[i].pageDir
  }

  /** User tasks have a directory; a kernel task has nothing of a user task. */
  predicate Plain(t: Tcb) {
    (t.user <==> t.pageDir != 0) && (!t.user ==> t.userStack == 0 && t.userStackTop == 0)
  }

  /** A slot is zeroed or holds a live task whose kernel stack is its own. */
  ghost predicate SlotOk(s: Sys, t: Tcb) {
    && (t.kernelStack == 0 ==> t == FREE)
    && (t.kernelStack != 0 ==> ProcessFrame(s, t.kernelStack) && !HoldsSpace(s.mem, t, t.kernelStack) && Plain(t))
  }

  ghost predicate PoolOk(s: Sys, pool: seq<Tcb>) {
    && |pool| == MAX_TASKS && SysOk(s, Dirs(pool)) && KernelLow(s)
    && (forall i :: 0 <= i < |pool| ==> SlotOk(s, pool[i]))
  }

  /** No frame is held by two tasks. */
  ghost predicate Separate(mem: Phys, pool: seq<Tcb>) {
    forall i, j, f: nat :: 0 <= i < |pool| && 0 <= j < |pool| && Holds(mem, pool[i], f) && Holds(mem, pool[j], f) ==> i == j
  }

  /** The frames in use are `base` and what the tasks hold, without overlap. */
  ghost predicate Accounted(base: set<nat>, s: Sys, pool: seq<Tcb>) {
    && (forall i, f: nat :: 0 <= i < |pool| && Holds(s.mem, pool[i], f) ==> f in s.used && f !in base)
    && (forall f :: f in s.used ==> f in base || exists i :: 0 <= i < |pool| && Holds(s.mem, pool[i], f))
    && base <= s.used
  }

  ghost predicate WorldOk(base: set<nat>, s: Sys, pool: seq<Tcb>) {
    PoolOk(s, pool) && Separate(s.mem, pool) && Accounted(base, s, pool)
  }

  // ----- Spawning

  /** Slot `i` has been filled with task `t`, whose frames were all free; `leak` was taken and lost. */
  ghost predicate Spawned(s: Sys, pool: seq<Tcb>, i: nat, t: Tcb, leak: set<nat>, r: Sys, pool': seq<Tcb>) {
    && i < |pool| && pool[i] == FREE && pool' == pool[i := t]
    && t.kernelStack != 0 && Plain(t)
    && |r.mem| == |s.mem| && SameBelow(s, r) && SysOk(r, Dirs(pool')) && KernelLow(r)
    && ProcessFrame(r, t.kernelStack) && !HoldsSpace(r.mem, t, t.kernelStack)
    && r.used == s.used + Held(r.mem, t) + leak && s.used !! Held(r.mem, t) && leak !! s.used + Held(r.mem, t)
  }

  lemma SlotSame(base: set<nat>, s: Sys, pool: seq<Tcb>, r: Sys, j: nat)
    requires WorldOk(base, s, pool) && |r.mem| == |s.mem| && SameBelow(s, r) && s.used <= r.used && j < |pool|
    ensures SlotOk(r, pool[j])
  {
    var t := pool[j];
    assert SlotOk(s, t);
    if t.kernelStack != 0 {
      SameKernelFrames(s, r, t.kernelStack);
      if t.pageDir != 0 {
        SpaceSame(s, r, Dirs(pool), t.pageDir, t.kernelStack);
      }
    }
  }

  lemma HeldSame(base: set<nat>, s: Sys, pool: seq<Tcb>, r: Sys, j: nat, f: nat)
    requires WorldOk(base, s, pool) && |r.mem| == |s.mem| && SameBelow(s, r) && j < |pool|
    ensures Holds(r.mem, pool[j], f) <==> Holds(s.mem, pool[j], f)
  {
    if pool[j].pageDir != 0 {
      SpaceSame(s, r, Dirs(pool), pool[j].pageDir, f);
    }
  }

  /** Spawning keeps the pool sound; what was lost moves into the base. */
  lemma SpawnKeeps(base: set<nat>, s: Sys, pool: seq<Tcb>, i: nat, t: Tcb, leak: set<nat>, r: Sys, pool': seq<Tcb>)
    requires WorldOk(base, s, pool) && Spawned(s, pool, i, t, leak, r, pool')
    ensures WorldOk(base + leak, r, pool')
  {
    forall j, f: nat | 0 <= j < |pool| && j != i
      ensures pool'[j] == pool[j]
      ensures Holds(r.mem, pool'[j], f) <==> Holds(s.mem, pool[j], f)
    {
      HeldSame(base, s, pool, r, j, f);
    }
    forall f: nat ensures Holds(r.mem, pool'[i], f) <==> f in Held(r.mem, t) {
    }
    forall j | 0 <= j < |pool| ensures SlotOk(r, pool'[j]) {
      if j != i {
        SlotSame(base, s, pool, r, j);
      }
    }
    forall f | f in r.used ensures f in base + leak || exists j :: 0 <= j < |pool'| && Holds(r.mem, pool'[j], f) {
      if f in s.used && f !in base {
        var j :| 0 <= j < |pool| && Holds(s.mem, pool[j], f);
        assert j != i;
        assert Holds(r.mem, pool'[j], f);
      } else if f in Held(r.mem, t) {
        assert Holds(r.mem, pool'[i], f);
      }
    }
  }

  /** A kernel task holds its stack page and nothing else. */
  lemma KernelSpawn(base: set<nat>, s: Sys, pool: seq<Tcb>, i: nat, k: nat, x: Frame, t: Tcb)
    requires WorldOk(base, s, pool) && i < |pool| && pool[i] == FREE && k !in s.used && k < TOTAL_FRAMES && x.Data?
    requires t.kernelStack == k && t.pageDir == 0 && Plain(t)
    ensures Spawned(s, pool, i, t, {}, Fresh(s, k, x), pool[i := t]) && WorldOk(base, Fresh(s, k, x), pool[i := t])
  {
    var r := Fresh(s, k, x);
    FreshKeeps(s, Dirs(pool), k, x);
    DirsGrow(pool, i, t);
    assert forall f: nat :: Holds(r.mem, t, f) <==> f == k;
    assert Held(r.mem, t) == {k};
    SpawnKeeps(base, s, pool, i, t, {}, r, pool[i := t]);
    assert base + {} == base;
  }

  lemma DirsGrow(pool: seq<Tcb>, i: nat, t: Tcb)
    requires i < |pool| && pool[i].pageDir == 0
    ensures Dirs(pool[i := t]) == if t.pageDir == 0 then Dirs(pool) else Dirs(pool) + {t.pageDir}
  {
    var q := pool[i := t];
    forall d ensures d in Dirs(q) <==> d in Dirs(pool) || (d != 0 && d == t.pageDir) {
      if d in Dirs(pool) {
        var j :| 0 <= j < |pool| && pool[j].pageDir == d;
        assert q[j].pageDir == d;
      }
      if d != 0 && d == t.pageDir {
        assert q[i].pageDir == d;
      }
    }
  }

  /** A spawn that failed: the pool is as before, and `leak` was taken and lost. */
  ghost predicate Failed(s: Sys, pool: seq<Tcb>, leak: set<nat>, r: Sys) {
    && r.used == s.used + leak && leak !! s.used && |r.mem| == |s.mem| && SameBelow(s, r)
    && SysOk(r, Dirs(pool)) && KernelLow(r)
  }

  lemma FailKeeps(base: set<nat>, s: Sys, pool: seq<Tcb>, leak: set<nat>, r: Sys)
    requires WorldOk(base, s, pool) && Failed(s, pool, leak, r)
    ensures WorldOk(base + leak, r, pool)
  {
    forall j, f: nat | 0 <= j < |pool| ensures Holds(r.mem, pool[j], f) <==> Holds(s.mem, pool[j], f) {
      HeldSame(base, s, pool, r, j, f);
    }
    forall j | 0 <= j < |pool| ensures SlotOk(r, pool[j]) {
      SlotSame(base, s, pool, r, j);
    }
    forall f | f in r.used ensures f in base + leak || exists j :: 0 <= j < |pool| && Holds(r.mem, pool[j], f) {
      if f !in base + leak {
        var j :| 0 <= j < |pool| && Holds(s.mem, pool[j], f);
        assert Holds(r.mem, pool[j], f);
      }
    }
  }

  /** A held frame is an ordinary frame in use. */
  lemma HeldIsOwn(base: set<nat>, s: Sys, pool: seq<Tcb>, i: nat, f: nat)
    requires WorldOk(base, s, pool) && i < |pool| && Holds(s.mem, pool[i], f)
    ensures ProcessFrame(s, f) && f !in base
  {
    assert SlotOk(s, pool[i]);
    if HoldsSpace(s.mem, pool[i], f) {
      OwnedIsUsed(s, pool[i].pageDir, f);
    }
  }

  // ----- Working

  /** A frame the task itself stores into: its kernel stack or a page of data. */
  ghost predicate StoresTo(mem: Phys, t: Tcb, f: nat) {
    Holds(mem, t, f) && (HoldsStack(t, f) || (f < |mem| && mem[f].Data?))
  }

  lemma WriteIsData(base: set<nat>, s: Sys, pool: seq<Tcb>, i: nat, f: nat)
    requires WorldOk(base, s, pool) && i < |pool| && StoresTo(s.mem, pool[i], f)
    ensures NoTable(s, Dirs(pool), f) && f < |s.mem|
  {
    HeldIsOwn(base, s, pool, i, f);
    if HoldsStack(pool[i], f) {
      forall c | c in Dirs(pool) ensures !Owns(s.mem, c, f) {
        var j :| 0 <= j < |pool| && pool[j].pageDir == c;
        assert SlotOk(s, pool[j]);
        assert j != i ==> !Holds(s.mem, pool[j], f);
      }
    }
  }

  /** Storing there moves no frame from one task to another. */
  lemma WorkHolds(base: set<nat>, s: Sys, pool: seq<Tcb>, i: nat, f: nat, x: Frame, j: nat, g: nat)
    requires WorldOk(base, s, pool) && i < |pool| && j < |pool| && StoresTo(s.mem, pool[i], f) && x.Data?
    ensures f < |s.mem| && (Holds(Fill(s.mem, f, x), pool[j], g) <==> Holds(s.mem, pool[j], g))
  {
    WriteIsData(base, s, pool, i, f);
    if pool[j].pageDir != 0 {
      DataOwns(s, Dirs(pool), f, x, pool[j].pageDir, g);
    }
  }

  lemma WorkKeeps(base: set<nat>, s: Sys, pool: seq<Tcb>, i: nat, f: nat, x: Frame)
    requires WorldOk(base, s, pool) && i < |pool| && StoresTo(s.mem, pool[i], f) && x.Data?
    ensures f < |s.mem| && WorldOk(base, s.(mem := Fill(s.mem, f, x)), pool)
  {
    WriteIsData(base, s, pool, i, f);
    var r := s.(mem := Fill(s.mem, f, x));
    DataKeeps(s, Dirs(pool), f, x);
    forall j, g: nat | 0 <= j < |pool| ensures Holds(r.mem, pool[j], g) <==> Holds(s.mem, pool[j], g) {
      WorkHolds(base, s, pool, i, f, x, j, g);
    }
    forall j | 0 <= j < |pool| ensures SlotOk(r, pool[j]) {
      assert SlotOk(s, pool[j]);
      if pool[j].kernelStack != 0 {
        SameKernelFrames(s, r, pool[j].kernelStack);
        if pool[j].pageDir != 0 {
          DataOwns(s, Dirs(pool), f, x, pool[j].pageDir, pool[j].kernelStack);
        }
      }
    }
    forall g | g in r.used ensures g in base || exists j :: 0 <= j < |pool| && Holds(r.mem, pool[j], g) {
      if g !in base {
        var j :| 0 <= j < |pool| && Holds(s.mem, pool[j], g);
        assert Holds(r.mem, pool[j], g);
      }
    }
  }

  // ----- Reaping

  lemma RetiredDirs(base: set<nat>, s: Sys, pool: seq<Tcb>, i: nat)
    requires WorldOk(base, s, pool) && i < |pool|
    ensures Dirs(pool[i := FREE]) == Dirs(pool) - {pool[i].pageDir}
  {
    var q := pool[i := FREE];
    forall d ensures d in Dirs(q) <==> d in Dirs(pool) && d != pool[i].pageDir {
      if d in Dirs(q) {
        var j :| 0 <= j < |q| && q[j].pageDir == d;
        assert pool[j].pageDir == d;
        if d == pool[i].pageDir {
          assert ProcOk(s, d);
          assert Owns(s.mem, d, d);
          assert HoldsSpace(s.mem, pool[i], d) && HoldsSpace(s.mem, pool[j], d);
        }
      }
      if d in Dirs(pool) && d != pool[i].pageDir {
        var j :| 0 <= j < |pool| && pool[j].pageDir == d;
        assert q[j].pageDir == d;
      }
    }
  }

  /** A task taken out of the pool leaves its frames, all still in use, to be given back. */
  lemma RetireKeeps(base: set<nat>, s: Sys, pool: seq<Tcb>, i: nat)
    requires WorldOk(base, s, pool) && i < |pool|
    ensures WorldOk(base + Held(s.mem, pool[i]), s, pool[i := FREE]) && base !! Held(s.mem, pool[i])
    ensures forall f :: f in Held(s.mem, pool[i]) ==> ProcessFrame(s, f)
  {
    var q := pool[i := FREE];
    RetiredDirs(base, s, pool, i);
    forall f | f in Held(s.mem, pool[i]) ensures ProcessFrame(s, f) && f !in base {
      HeldIsOwn(base, s, pool, i, f);
    }
    forall j | 0 <= j < |q| ensures SlotOk(s, q[j]) {
      assert SlotOk(s, pool[j]);
    }
    forall f | f in s.used ensures f in base + Held(s.mem, pool[i]) || exists j :: 0 <= j < |q| && Holds(s.mem, q[j], f) {
      if f !in base {
        var j :| 0 <= j < |pool| && Holds(s.mem, pool[j], f);
        assert j != i ==> Holds(s.mem, q[j], f);
        HeldIsOwn(base, s, pool, j, f);
      }
    }
  }

  function Released(s: Sys, fs: set<nat>): (r: Sys) {
    s.(used := s.used - fs)
  }

  /** Frames that no task holds and no kernel table uses can be freed without a task noticing. */
  lemma ReleaseKeeps(base: set<nat>, s: Sys, pool: seq<Tcb>, fs: set<nat>)
    requires WorldOk(base, s, pool) && fs <= base && forall f :: f in fs ==> ProcessFrame(s, f)
    ensures WorldOk(base - fs, Released(s, fs), pool)
  {
    var r := Released(s, fs);
    AllCovered(s, Dirs(pool));
    forall c, f: nat | c in Dirs(pool) && Owns(s.mem, c, f) ensures f !in fs {
      var j :| 0 <= j < |pool| && pool[j].pageDir == c;
      OwnedIsUsed(s, c, f);
      assert Holds(s.mem, pool[j], f);
    }
    assert Covers(s, Dirs(pool), s.used - fs);
    UsedChanges(s, Dirs(pool), s.used - fs);
    forall j | 0 <= j < |pool| ensures SlotOk(r, pool[j]) {
      assert SlotOk(s, pool[j]);
      if pool[j].kernelStack != 0 {
        assert Holds(s.mem, pool[j], pool[j].kernelStack);
        SameKernelFrames(s, r, pool[j].kernelStack);
      }
    }
    forall f | f in r.used ensures f in base - fs || exists j :: 0 <= j < |pool| && Holds(r.mem, pool[j], f) {
      if f !in base {
        var j :| 0 <= j < |pool| && Holds(s.mem, pool[j], f);
        assert Holds(r.mem, pool[j], f);
      }
    }
  }

  /** Kernel stack and address space are the two parts a task gives back. */
  lemma HeldParts(base: set<nat>, s: Sys, pool: seq<Tcb>, i: nat)
    requires WorldOk(base, s, pool) && i < |pool| && pool[i].kernelStack != 0
    ensures var t := pool[i];
            && t.kernelStack < TOTAL_FRAMES && !IsReserved(t.kernelStack) && (t.pageDir == 0 ==> t.userStack == 0)
            && (t.pageDir == 0 ==> Held(s.mem, t) == {t.kernelStack})
            && (t.pageDir != 0 ==> Held(s.mem, t) == {t.kernelStack} + Owned(s.mem, t.pageDir)
                                   && t.kernelStack !in Owned(s.mem, t.pageDir)
                                   && ProcOk(s.(used := s.used - {t.kernelStack}), t.pageDir))
  {
    var t := pool[i];
    assert SlotOk(s, t) && HoldsStack(t, t.kernelStack) && Holds(s.mem, t, t.kernelStack);
    forall c | c in Dirs(pool) ensures !Owns(s.mem, c, t.kernelStack) {
      var j :| 0 <= j < |pool| && pool[j].pageDir == c;
      assert j != i ==> !Holds(s.mem, pool[j], t.kernelStack);
    }
    FreeKeeps(s, Dirs(pool), t.kernelStack);
    if t.pageDir == 0 {
      assert Held(s.mem, t) == {t.kernelStack};
    } else {
      assert Held(s.mem, t) == {t.kernelStack} + Owned(s.mem, t.pageDir);
    }
  }

  /** A spawned task that exits and is reaped leaves the frames in use and the pool as they were, if nothing was lost. */
  lemma SpawnReapRestores(base: set<nat>, s: Sys, pool: seq<Tcb>, i: nat, t: Tcb, leak: set<nat>, r: Sys, pool': seq<Tcb>)
    requires WorldOk(base, s, pool) && Spawned(s, pool, i, t, leak, r, pool')
    ensures Released(r, Held(r.mem, t)).used == s.used + leak
    ensures Released(r, Held(r.mem, t)).used == s.used <==> leak == {}
    ensures pool'[i := FREE] == pool
  {
    if leak != {} {
      var f :| f in leak;
      assert f !in s.used;
    }
  }
}
