/**
 Scheduler, task pool and frames together, as a state machine: ticks, spawns,
 exits and the separate steps of reaping, and which of them keep the accounting.
 */
module KernelSteps {
  import opened Machine
  import opened Bits
  import opened Pmm
  import opened PagingSpec
  import opened AddressSpace
  import opened Spaces
  import opened ProcessBuild
  import opened TaskSpec
  import S = SchedSpec

  /** A word of the frame bitmap that free_page has loaded, to store it again without the bit of `frame`. */
  datatype Word = Idle | Loaded(frame: nat, word: set<nat>)

  /** Pool slot `i` is task `i + 1` of the scheduler; `todo` are the frames the task being reaped has still to give back. */
  datatype Kernel = Kernel(sched: S.Sched, sys: Sys, pool: seq<Tcb>, todo: set<nat>, load: Word)

  predicate SameWord(f: nat, g: nat) {
    f / 32 == g / 32
  }

  ghost function WordOf(used: set<nat>, f: nat): (w: set<nat>) {
    set g | g in used && SameWord(f, g)
  }

  // ----- Control blocks in pieces

  /** Zeroed up to kernel_stack: the two fields that mark a free slot are clear, those behind them are not. */
  function Half(t: Tcb): (r: Tcb) {
    t.(id := 0, kernelStack := 0, esp := 0)
  }

  /** The rest zeroed. */
  function Rest(t: Tcb): (r: Tcb) {
    t.(user := false, userStack := 0, userStackTop := 0, pageDir := 0)
  }

  /** What a spawn leaves in a slot: task_create does not touch the fields of user tasks. */
  function Over(was: Tcb, t: Tcb): (r: Tcb) {
    if t.user then t
    else t.(user := was.user, userStack := was.userStack, userStackTop := was.userStackTop, pageDir := was.pageDir)
  }

  // ----- The invariant

  /** The slot is being reaped or zeroed, and what it still says no longer counts. */
  predicate Passing(k: Kernel, i: nat) {
    i < |k.pool| && (i + 1 == k.sched.reaped || (i + 1 == k.sched.tail && k.pool[i].kernelStack == 0))
  }

  /** The pool without the task that is passing. */
  function Settled(k: Kernel): (q: seq<Tcb>)
    ensures |q| == |k.pool|
    ensures forall i :: 0 <= i < |q| ==> q[i] == if Passing(k, i) then FREE else k.pool[i]
  {
    seq(|k.pool|, i requires 0 <= i < |k.pool| => if Passing(k, i) then FREE else k.pool[i])
  }

  /** The scheduler knows exactly the slots that hold a task. */
  ghost predicate Agrees(sched: S.Sched, pool: seq<Tcb>) {
    && |pool| == MAX_TASKS && |sched.live| == S.TASKS
    && forall i :: 0 <= i < |pool| ==> (sched.live[i + 1] <==> pool[i].kernelStack != 0)
  }

  ghost predicate TodoOk(base: set<nat>, k: Kernel) {
    && base !! k.todo && (k.sched.reaped == -1 ==> k.todo == {})
    && (forall f :: f in k.todo ==> ProcessFrame(k.sys, f))
    && (k.load.Loaded? ==> k.load.frame in k.todo && k.load.frame in k.load.word && k.load.word <= WordOf(k.sys.used, k.load.frame))
  }

  /** A passing slot holds what is left of a task. */
  ghost predicate PassingOk(k: Kernel) {
    && (0 < k.sched.reaped <= |k.pool| ==> Plain(k.pool[k.sched.reaped - 1]))
    && (0 < k.sched.tail <= |k.pool| && k.pool[k.sched.tail - 1].kernelStack == 0 ==>
          k.pool[k.sched.tail - 1] == Half(k.pool[k.sched.tail - 1]) && Plain(k.pool[k.sched.tail - 1]))
  }

  /** The frames in use are `base`, those still to be given back, and what the other tasks hold, without overlap. */
  ghost predicate Coherent(base: set<nat>, k: Kernel) {
    && S.Inv(k.sched) && Agrees(k.sched, k.pool) && TodoOk(base, k) && PassingOk(k)
    && WorldOk(base + k.todo, k.sys, Settled(k))
  }

  /** At boot nothing is held but what is in use already. */
  lemma BootCoherent(s: Sys, pool: seq<Tcb>)
    requires SysOk(s, {}) && KernelLow(s) && |pool| == MAX_TASKS && forall i :: 0 <= i < |pool| ==> pool[i] == FREE
    ensures Coherent(s.used, Kernel(S.Initial(), s, pool, {}, Idle))
  {
    var k := Kernel(S.Initial(), s, pool, {}, Idle);
    assert Dirs(pool) == {};
    assert Settled(k) == pool && s.used + k.todo == s.used;
    hide S.Inv, SysOk, KernelLow;
    assert PoolOk(s, pool);
  }

  predicate Linked(k: Kernel, i: nat) {
    i + 1 in k.sched.queue
  }

  // ----- Steps

  datatype Step =
    | Event(event: S.Step)
    | Work(frame: nat, bytes: Frame)
    | Spawn(slot: nat, task: Tcb, leak: set<nat>)
    | Fail(leak: set<nat>)
    | Unlink(slot: nat)
    | LoadWord(frame: nat)
    | StoreWord
    | Clear
    | Finish

  predicate IsEvent(e: S.Step) {
    e.Tick? || e.Yield? || e.Enable? || e.Exit?
  }

  /** Frame `f` has been overwritten. */
  function Stored(s: Sys, f: nat, x: Frame): (r: Sys)
    requires f < |s.mem|
  {
    s.(mem := Fill(s.mem, f, x))
  }

  /** The bitmap after the loaded word has been stored without its frame: what was taken from that word meanwhile is free again. */
  ghost function StoredBack(s: Sys, load: Word): (r: Sys)
    requires load.Loaded?
  {
    s.(used := s.used - WordOf(s.used, load.frame) + (load.word - {load.frame}))
  }

  /** In bits: the word of frame `f`, as bitmap `then'` had it, stored into bitmap `now` with the bit of `f` clear. */
  lemma StoredBits(s: Sys, then': seq<Bits32>, now: seq<Bits32>, f: nat)
    requires |then'| == |now| == BITMAP_WORDS && f < TOTAL_FRAMES && s.used == UsedSet(now)
    ensures UsedSet(now[f / 32 := then'[f / 32][f % 32 := false]]) == StoredBack(s, Loaded(f, WordOf(UsedSet(then'), f))).used
  {
    var bm := now[f / 32 := then'[f / 32][f % 32 := false]];
    forall g: nat | g < TOTAL_FRAMES
      ensures BitAt(bm, g) <==> if SameWord(f, g) then BitAt(then', g) && g != f else BitAt(now, g)
    {
      assert g == f <==> g / 32 == f / 32 && g % 32 == f % 32;
    }
  }

  /** A failed spawn zeroes the slot it had taken. */
  predicate PoolAfterFail(k: Kernel, pool: seq<Tcb>) {
    pool == k.pool || (0 < k.sched.tail <= |k.pool| && Passing(k, k.sched.tail - 1) && pool == k.pool[k.sched.tail - 1 := FREE])
  }

  predicate BootRuns(k: Kernel) {
    |k.sched.queue| > 0 && S.Current(k.sched) == S.BOOT
  }

  /**
   One step. The running task stores into its own frames. task_reap runs in the
   boot task with interrupts on after the unlinking, so that other steps may come
   between its unlinking, the load and the store of every free, and the two halves
   of its zeroing of the slot.
   */
  ghost predicate Next(k: Kernel, step: Step, r: Kernel) {
    match step
    case Event(e) => IsEvent(e) && S.Legal(k.sched, e) && r == k.(sched := S.Next(k.sched, e))
    case Work(f, x) => && x.Data? && |k.sched.queue| > 0 && 0 < S.Current(k.sched) <= |k.pool| && f < |k.sys.mem|
                       && StoresTo(k.sys.mem, k.pool[S.Current(k.sched) - 1], f) && r == k.(sys := Stored(k.sys, f, x))
    case Spawn(i, t, leak) =>
      && i < |k.pool| && S.Legal(k.sched, S.Create(i + 1)) && Spawned(k.sys, Settled(k), i, t, leak, r.sys, Settled(k)[i := t])
      && r == k.(sched := S.Next(k.sched, S.Create(i + 1)), sys := r.sys, pool := k.pool[i := Over(k.pool[i], t)])
    case Fail(leak) =>
      && Failed(k.sys, Settled(k), leak, r.sys) && PoolAfterFail(k, r.pool)
      && r == k.(sys := r.sys, pool := r.pool)
    case Unlink(i) =>
      && i < |k.pool| && S.Legal(k.sched, S.Unlink(i + 1)) && k.load.Idle?
      && r == k.(sched := S.Next(k.sched, S.Unlink(i + 1)), todo := Held(k.sys.mem, k.pool[i]))
    case LoadWord(f) =>
      BootRuns(k) && k.load.Idle? && f in k.todo && r == k.(load := Loaded(f, WordOf(k.sys.used, f)))
    case StoreWord =>
      && BootRuns(k) && k.load.Loaded?
      && r == k.(sys := StoredBack(k.sys, k.load), todo := k.todo - {k.load.frame}, load := Idle)
    case Clear =>
      && S.Legal(k.sched, S.Clear) && k.todo == {} && k.load.Idle? && 0 < k.sched.reaped <= |k.pool|
      && var z := k.sched.reaped - 1;
      r == k.(sched := S.Next(k.sched, S.Clear), pool := k.pool[z := Half(k.pool[z])])
    case Finish =>
      && S.Legal(k.sched, S.Finish) && k.load.Idle? && 0 < k.sched.tail <= |k.pool|
      && var z := k.sched.tail - 1;
      r == k.(sched := S.Next(k.sched, S.Finish), pool := k.pool[z := Rest(k.pool[z])])
  }

  function Lost(step: Step): (fs: set<nat>) {
    match step
    case Spawn(_, _, leak) => leak
    case Fail(leak) => leak
    case _ => {}
  }

  /**
   When a step does no harm. A kernel task spawned in a slot that is still being
   zeroed keeps the directory of the dead one; the store of a bitmap word frees
   what was taken from it after the load; the end of the zeroing unlinks a task
   spawned in the slot.
   */
  ghost predicate Harmless(k: Kernel, step: Step) {
    match step
    case Spawn(i, t, _) => i < |k.pool| && i + 1 == k.sched.tail && !t.user ==> k.pool[i].pageDir == 0
    case StoreWord => k.load.Loaded? ==> WordOf(k.sys.used, k.load.frame) == k.load.word
    case Finish => S.Quiet(k.sched, S.Finish)
    case _ => true
  }

  // ----- Steps and the invariant

  /** Events leave the slots in use and the reaping alone. */
  lemma EventKeeps(s: S.Sched, e: S.Step)
    requires S.Inv(s) && S.Legal(s, e) && IsEvent(e)
    ensures S.Inv(S.Next(s, e)) && S.Next(s, e).live == s.live && S.Next(s, e).reaped == s.reaped && S.Next(s, e).tail == s.tail
  {
    S.StepKeeps(s, e);
  }

  /** A linked task is one that is in its slot and not being reaped. */
  lemma LinkedIs(base: set<nat>, k: Kernel, i: nat)
    requires Coherent(base, k) && i < MAX_TASKS
    ensures |k.pool| == MAX_TASKS && (Linked(k, i) <==> k.pool[i].kernelStack != 0 && i + 1 != k.sched.reaped)
    ensures Linked(k, i) ==> !Passing(k, i)
    ensures k.sched.reaped != -1 ==> 0 < k.sched.reaped <= MAX_TASKS && k.pool[k.sched.reaped - 1].kernelStack != 0
    ensures k.sched.tail != -1 ==> 0 < k.sched.tail <= MAX_TASKS && k.sched.reaped == -1
  {
  }

  lemma SpawnStep(base: set<nat>, k: Kernel, i: nat, t: Tcb, leak: set<nat>, r: Kernel)
    requires Coherent(base, k) && Next(k, Spawn(i, t, leak), r) && Harmless(k, Spawn(i, t, leak))
    ensures Coherent(base + leak, r)
  {
    hide WorldOk, ProcessFrame, S.Inv, S.Insert, S.Shape, SysOk, S.Legal, WordOf;
    S.StepKeeps(k.sched, S.Create(i + 1));
    SpawnAgrees(base, k, i, t, leak, r);
    SpawnKeeps(base + k.todo, k.sys, Settled(k), i, t, leak, r.sys, Settled(r));
    assert base + k.todo + leak == base + leak + r.todo;
    forall f | f in r.todo ensures ProcessFrame(r.sys, f) && f !in leak {
      StillOwn(k.sys, leak + Held(r.sys.mem, t), r.sys, f);
    }
    WordGrows(k.sys.used, r.sys.used);
  }

  lemma WordGrows(u: set<nat>, v: set<nat>)
    requires u <= v
    ensures forall f: nat :: WordOf(u, f) <= WordOf(v, f)
  {
  }

  lemma SpawnAgrees(base: set<nat>, k: Kernel, i: nat, t: Tcb, leak: set<nat>, r: Kernel)
    requires Coherent(base, k) && Next(k, Spawn(i, t, leak), r) && Harmless(k, Spawn(i, t, leak))
    ensures Agrees(r.sched, r.pool) && PassingOk(r) && r.sched.reaped == k.sched.reaped != i + 1
    ensures r.pool == k.pool[i := t] && Settled(r) == Settled(k)[i := t]
  {
    hide WorldOk, TodoOk, S.Insert, S.QueueOk;
    OverIs(base, k, i, t);
  }

  /** Away from stale fields a spawn leaves its own record. */
  lemma OverIs(base: set<nat>, k: Kernel, i: nat, t: Tcb)
    requires Coherent(base, k) && i < |k.pool| && Settled(k)[i] == FREE && Plain(t) && t.kernelStack != 0 && i + 1 != k.sched.reaped
    requires i + 1 == k.sched.tail && !t.user ==> k.pool[i].pageDir == 0
    ensures Over(k.pool[i], t) == t
  {
  }

  /** A kernel task spawned over the directory of a dead one: that directory is free, or someone else's. */
  lemma StaleDirectory(base: set<nat>, k: Kernel, i: nat, t: Tcb, leak: set<nat>, r: Kernel)
    requires Coherent(base, k) && Next(k, Spawn(i, t, leak), r) && !Harmless(k, Spawn(i, t, leak))
    ensures !Coherent(base + leak, r)
  {
    if Coherent(base + leak, r) {
      LinkedIs(base + leak, r, i);
      var d := k.pool[i].pageDir;
      assert !Passing(r, i) && Settled(r)[i] == r.pool[i] && r.pool[i].pageDir == d != 0;
      OthersStay(k, i, t, leak, r);
      hide S.Inv, S.Legal, S.Next, Agrees, TodoOk, PassingOk, Settled, Passing, SysOk, KernelLow, SlotOk;
      DirectoryHeld(base + leak + r.todo, r.sys, Settled(r), i);
      HeldAlone(k.sys, t, r.sys, d);
      var j :| 0 <= j < |k.pool| && Holds(k.sys.mem, Settled(k)[j], d);
      HeldSame(base + k.todo, k.sys, Settled(k), r.sys, j, d);
      assert false;
    }
  }

  lemma OthersStay(k: Kernel, i: nat, t: Tcb, leak: set<nat>, r: Kernel)
    requires Next(k, Spawn(i, t, leak), r)
    ensures forall l :: 0 <= l < |k.pool| && l != i ==> l < |r.pool| && Settled(r)[l] == Settled(k)[l]
  {
    hide Spawned, S.Insert, S.Shape;
  }

  lemma DirectoryHeld(base: set<nat>, s: Sys, pool: seq<Tcb>, i: nat)
    requires WorldOk(base, s, pool) && i < |pool| && pool[i].pageDir != 0
    ensures Holds(s.mem, pool[i], pool[i].pageDir) && pool[i].pageDir in s.used && pool[i].pageDir !in base
    ensures pool[i].kernelStack != pool[i].pageDir
  {
    var d := pool[i].pageDir;
    assert d in Dirs(pool) && ProcOk(s, d) && Owns(s.mem, d, d);
    assert SlotOk(s, pool[i]);
  }

  lemma HeldAlone(s: Sys, t: Tcb, r: Sys, d: nat)
    requires t.pageDir == 0 && d != t.kernelStack
    ensures d !in Held(r.mem, t)
  {
  }

  lemma StillOwn(s: Sys, more: set<nat>, r: Sys, f: nat)
    requires ProcessFrame(s, f) && SameBelow(s, r) && r.used == s.used + more
    ensures ProcessFrame(r, f) && f in s.used
  {
    SameKernelFrames(s, r, f);
  }

  lemma FailStep(base: set<nat>, k: Kernel, leak: set<nat>, r: Kernel)
    requires Coherent(base, k) && Next(k, Fail(leak), r)
    ensures Coherent(base + leak, r)
  {
    FailSame(base, k, leak, r);
    hide WorldOk, ProcessFrame, WordOf, S.Inv, Passing, PassingOk, Agrees;
    FailKeeps(base + k.todo, k.sys, Settled(k), leak, r.sys);
    assert base + k.todo + leak == base + leak + r.todo;
    forall f | f in r.todo ensures ProcessFrame(r.sys, f) && f !in leak {
      StillOwn(k.sys, leak, r.sys, f);
    }
    WordGrows(k.sys.used, r.sys.used);
  }

  /** The slot a failed spawn zeroes is one that no longer counted. */
  lemma FailSame(base: set<nat>, k: Kernel, leak: set<nat>, r: Kernel)
    requires Coherent(base, k) && Next(k, Fail(leak), r)
    ensures Settled(r) == Settled(k) && Agrees(r.sched, r.pool) && PassingOk(r)
  {
    hide WorldOk, TodoOk, Failed;
    LinkedIs(base, k, 0);
  }

  lemma UnlinkStep(base: set<nat>, k: Kernel, i: nat, r: Kernel)
    requires Coherent(base, k) && Next(k, Unlink(i), r)
    ensures Coherent(base, r)
  {
    NothingPasses(base, k, i);
    S.StepKeeps(k.sched, S.Unlink(i + 1));
    hide WorldOk, ProcessFrame, S.Inv, S.Without, S.Shape, Settled;
    RetireKeeps(base, k.sys, k.pool, i);
    PlainSlot(base, k.sys, k.pool, i);
    OnePasses(k, r, i);
  }

  lemma NothingPasses(base: set<nat>, k: Kernel, i: nat)
    requires Coherent(base, k) && i < |k.pool| && S.Legal(k.sched, S.Unlink(i + 1))
    ensures S.Inv(k.sched) && k.todo == {} && WorldOk(base, k.sys, k.pool) && k.pool[i].kernelStack != 0
  {
    hide WorldOk, S.Inv, S.Shape;
    assert Settled(k) == k.pool && base + k.todo == base;
  }

  lemma OnePasses(k: Kernel, r: Kernel, i: nat)
    requires i < |k.pool| && r.pool == k.pool && r.sched.reaped == i + 1 && r.sched.tail == -1
    ensures Settled(r) == k.pool[i := FREE]
  {
  }

  lemma PlainSlot(base: set<nat>, s: Sys, pool: seq<Tcb>, i: nat)
    requires WorldOk(base, s, pool) && i < |pool|
    ensures Plain(pool[i])
  {
    assert SlotOk(s, pool[i]);
  }

  lemma LoadStep(base: set<nat>, k: Kernel, f: nat, r: Kernel)
    requires Coherent(base, k) && Next(k, LoadWord(f), r)
    ensures Coherent(base, r)
  {
    hide WorldOk;
    assert Settled(r) == Settled(k);
  }

  /** Frames given back, in one go. */
  ghost predicate GivesBack(k: Kernel, fs: set<nat>, r: Kernel) {
    BootRuns(k) && k.load.Idle? && fs <= k.todo && r == k.(sys := Released(k.sys, fs), todo := k.todo - fs)
  }

  lemma GivesBackKeeps(base: set<nat>, k: Kernel, fs: set<nat>, r: Kernel)
    requires Coherent(base, k) && GivesBack(k, fs, r)
    ensures Coherent(base, r)
  {
    hide WorldOk, S.Inv;
    ReleaseKeeps(base + k.todo, k.sys, Settled(k), fs);
    assert base + k.todo - fs == base + r.todo;
    assert Settled(r) == Settled(k);
    forall f | f in r.todo ensures ProcessFrame(r.sys, f) {
      SameKernelFrames(k.sys, r.sys, f);
    }
  }

  /** With nothing taken from the word meanwhile, load and store free one frame. */
  lemma StoreIsFree(base: set<nat>, k: Kernel, r: Kernel)
    requires Coherent(base, k) && Next(k, StoreWord, r) && Harmless(k, StoreWord)
    ensures GivesBack(k.(load := Idle), {k.load.frame}, r) && Coherent(base, k.(load := Idle))
  {
    hide WorldOk, S.Inv;
    var f := k.load.frame;
    assert k.sys.used - WordOf(k.sys.used, f) + (k.load.word - {f}) == k.sys.used - {f};
    assert Settled(k.(load := Idle)) == Settled(k);
  }

  /** With a frame taken from the word meanwhile, the store takes it from its owner. */
  lemma StoreTakes(base: set<nat>, k: Kernel, r: Kernel)
    requires Coherent(base, k) && Next(k, StoreWord, r) && !Harmless(k, StoreWord)
    ensures !Coherent(base, r)
    ensures exists g :: g in k.sys.used && g !in r.sys.used && g != k.load.frame
  {
    var f := k.load.frame;
    var g :| g in WordOf(k.sys.used, f) && g !in k.load.word;
    assert g in k.sys.used && g !in r.sys.used && g != f;
    assert Settled(r) == Settled(k);
    hide S.Inv;
    if g !in base + k.todo {
      var j :| 0 <= j < |k.pool| && Holds(k.sys.mem, Settled(k)[j], g);
      assert Holds(r.sys.mem, Settled(r)[j], g);
    }
  }

  lemma StoreStep(base: set<nat>, k: Kernel, r: Kernel)
    requires Coherent(base, k) && Next(k, StoreWord, r)
    ensures Coherent(base, r) <==> Harmless(k, StoreWord)
  {
    hide Coherent, Harmless, GivesBack;
    if Harmless(k, StoreWord) {
      StoreIsFree(base, k, r);
      GivesBackKeeps(base, k.(load := Idle), {k.load.frame}, r);
    } else {
      StoreTakes(base, k, r);
    }
  }

  lemma CurrentLinked(base: set<nat>, k: Kernel)
    requires Coherent(base, k)
    ensures |k.sched.queue| > 0 && S.Current(k.sched) <= MAX_TASKS && S.Current(k.sched) != k.sched.reaped
    ensures S.Current(k.sched) != S.BOOT ==> Linked(k, S.Current(k.sched) - 1)
  {
    assert S.Current(k.sched) in k.sched.queue;
  }

  lemma WorkStep(base: set<nat>, k: Kernel, f: nat, x: Frame, r: Kernel)
    requires Coherent(base, k) && Next(k, Work(f, x), r)
    ensures Coherent(base, r) && f !in k.todo
  {
    hide WorldOk, S.Inv, StoresTo;
    CurrentLinked(base, k);
    var i := S.Current(k.sched) - 1;
    LinkedIs(base, k, i);
    assert Settled(k)[i] == k.pool[i];
    WorkKeeps(base + k.todo, k.sys, Settled(k), i, f, x);
    assert Settled(r) == Settled(k);
    WritesOwn(base + k.todo, k.sys, Settled(k), i, f);
    forall g | g in r.todo ensures ProcessFrame(r.sys, g) {
      SameKernelFrames(k.sys, r.sys, g);
    }
  }

  lemma WritesOwn(base: set<nat>, s: Sys, pool: seq<Tcb>, i: nat, f: nat)
    requires WorldOk(base, s, pool) && i < |pool| && StoresTo(s.mem, pool[i], f)
    ensures f !in base && Holds(s.mem, pool[i], f)
  {
    HeldIsOwn(base, s, pool, i, f);
  }

  lemma ClearStep(base: set<nat>, k: Kernel, r: Kernel)
    requires Coherent(base, k) && Next(k, Clear, r)
    ensures Coherent(base, r)
  {
    hide WorldOk;
    S.StepKeeps(k.sched, S.Clear);
    assert Settled(r) == Settled(k);
  }

  lemma FinishStep(base: set<nat>, k: Kernel, r: Kernel)
    requires Coherent(base, k) && Next(k, Finish, r)
    ensures Coherent(base, r) <==> Harmless(k, Finish)
  {
    hide WorldOk;
    S.StepExact(k.sched, S.Finish);
    if S.Quiet(k.sched, S.Finish) {
      LinkedIs(base, k, k.sched.tail - 1);
      assert Settled(r) == Settled(k);
    }
  }

  /** A step keeps the accounting exactly when it does no harm; what a spawn lost moves into the base. */
  lemma StepExact(base: set<nat>, k: Kernel, step: Step, r: Kernel)
    requires Coherent(base, k) && Next(k, step, r)
    ensures Coherent(base + Lost(step), r) <==> Harmless(k, step)
  {
    hide WorldOk, S.Inv, S.Legal, S.Next, Spawned, Failed;
    assert base + {} == base;
    match step
    case Event(e) =>
      EventKeeps(k.sched, e);
      assert Settled(r) == Settled(k);
    case Work(f, x) => WorkStep(base, k, f, x, r);
    case Spawn(i, t, leak) =>
      if Harmless(k, step) {
        SpawnStep(base, k, i, t, leak, r);
      } else {
        StaleDirectory(base, k, i, t, leak, r);
      }
    case Fail(leak) => FailStep(base, k, leak, r);
    case Unlink(i) => UnlinkStep(base, k, i, r);
    case LoadWord(f) => LoadStep(base, k, f, r);
    case StoreWord => StoreStep(base, k, r);
    case Clear => ClearStep(base, k, r);
    case Finish => FinishStep(base, k, r);
  }

  lemma StepKeeps(base: set<nat>, k: Kernel, step: Step, r: Kernel)
    requires Coherent(base, k) && Next(k, step, r) && Harmless(k, step)
    ensures Coherent(base + Lost(step), r)
  {
    StepExact(base, k, step, r);
  }

  // ----- Spawning a kernel task

  /** A kernel task has been spawned in slot `i` on stack `f`, which now holds `x`. */
  function AfterSpawn(k: Kernel, i: nat, id: u32, f: nat, x: Frame): (r: Kernel)
    requires i < |k.pool| && f < TOTAL_FRAMES <= |k.sys.mem| && S.Legal(k.sched, S.Create(i + 1))
  {
    Kernel(S.Next(k.sched, S.Create(i + 1)), Fresh(k.sys, f, x), k.pool[i := Over(k.pool[i], KernelTask(id, f))], k.todo, k.load)
  }

  /** A kernel task can be spawned in any slot that is free to the scheduler, on any free frame. */
  lemma KernelSpawns(base: set<nat>, k: Kernel, i: nat, id: u32, f: nat, x: Frame)
    requires Coherent(base, k) && i < |k.pool| && Settled(k)[i] == FREE && S.Legal(k.sched, S.Create(i + 1))
    requires f !in k.sys.used && f < TOTAL_FRAMES <= |k.sys.mem| && x.Data?
    ensures Next(k, Spawn(i, KernelTask(id, f), {}), AfterSpawn(k, i, id, f, x))
    ensures Coherent(base, AfterSpawn(k, i, id, f, x)) <==> Harmless(k, Spawn(i, KernelTask(id, f), {}))
  {
    hide Coherent, S.Next, S.Legal, WorldOk, Spawned, Passing, Settled, Harmless;
    WorldOf(base, k);
    var t, r := KernelTask(id, f), AfterSpawn(k, i, id, f, x);
    KernelSpawn(base + k.todo, k.sys, Settled(k), i, f, x, t);
    assert Next(k, Spawn(i, t, {}), r);
    hide Next;
    StepExact(base, k, Spawn(i, t, {}), r);
    assert base + {} == base;
  }

  lemma WorldOf(base: set<nat>, k: Kernel)
    requires Coherent(base, k)
    ensures WorldOk(base + k.todo, k.sys, Settled(k))
  {
  }
}
