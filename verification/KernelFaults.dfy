/**
 Runs from boot in which a reap is overtaken by a spawn, which the shell makes in
 the keyboard interrupt: a frame is taken from a bitmap word that is loaded, the
 stack just freed is handed out again, a slot is taken while it is half zeroed.
 */
module KernelFaults {
  import opened Machine
  import opened PagingSpec
  import opened AddressSpace
  import opened Spaces
  import opened ProcessBuild
  import opened TaskState
  import opened TaskSpec
  import opened KernelSteps
  import opened KernelRuns
  import P = Pmm
  import S = SchedSpec

  function NoTasks(): (pool: seq<Tcb>)
    ensures |pool| == MAX_TASKS && forall i :: 0 <= i < MAX_TASKS ==> pool[i] == FREE
  {
    seq(MAX_TASKS, i => FREE)
  }

  /** The lowest free frame and the next one, in one word of the bitmap. */
  predicate FreePair(used: set<nat>, f: nat) {
    P.LowestFree(used, f) && f + 1 !in used && f % 32 < 31 && f + 1 < P.TOTAL_FRAMES
  }

  // ----- Single steps

  /** The queue, and which of its tasks are dead. */
  ghost predicate Queued(s: S.Sched, q: seq<nat>, dead: set<nat>) {
    S.Inv(s) && s.queue == q && forall i: nat :: i < S.TASKS ==> (s.state[i] == Dead <==> i in dead)
  }

  /** The circle with the next task as the current one. */
  function Turned(q: seq<nat>): (r: seq<nat>)
    requires q != []
  {
    q[1..] + [q[0]]
  }

  function Inserted(q: seq<nat>, p: nat, i: nat): (r: seq<nat>)
    requires p <= |q|
  {
    q[..p] + [i] + q[p..]
  }

  /** The next task, if it is alive, comes to run when the current one yields. */
  lemma Switches(s: S.Sched, q: seq<nat>, dead: set<nat>)
    requires |q| > 1 && Queued(s, q, dead) && q[0] !in dead
    ensures S.Legal(s, S.Yield)
    ensures var r := S.Next(s, S.Yield);
            Queued(r, Turned(q), dead) && r == s.(queue := r.queue, state := r.state, slice := S.TIME_SLICE)
  {
    QueueFacts(s, q, dead);
    S.StepKeeps(s, S.Yield);
    SwitchTo(s, q, dead);
    hide S.Inv, S.SwitchTo, S.PickAt, Turned;
  }

  lemma SwitchTo(s: S.Sched, q: seq<nat>, dead: set<nat>)
    requires S.Shape(s) && s.queue == q && |q| > 1 && q[0] != q[|q| - 1] && S.Eligible(s.state[q[0]])
    requires forall i: nat :: i < S.TASKS ==> (s.state[i] == Dead <==> i in dead)
    ensures S.PickAt(s) == 0
    ensures var r := S.SwitchTo(s, 0);
            && r == s.(queue := Turned(q), state := r.state, slice := S.TIME_SLICE)
            && |r.state| == S.TASKS && forall i: nat :: i < S.TASKS ==> (r.state[i] == Dead <==> i in dead)
  {
    assert S.First(q, s.state, 0) == 0;
    assert S.Rotate(q, 0) == Turned(q);
  }

  lemma QueueFacts(s: S.Sched, q: seq<nat>, dead: set<nat>)
    requires Queued(s, q, dead) && |q| > 0
    ensures S.Shape(s) && q[0] < S.TASKS && (|q| > 1 ==> q[0] != q[|q| - 1]) && (q[0] !in dead ==> S.Eligible(s.state[q[0]]))
  {
  }

  lemma Created(s: S.Sched, q: seq<nat>, dead: set<nat>, p: nat, i: nat)
    requires Queued(s, q, dead) && p < |q| && q[p] == S.BOOT && 0 < i < S.TASKS && i !in q && i != s.reaped
    ensures S.Legal(s, S.Create(i))
    ensures var r := S.Next(s, S.Create(i));
            Queued(r, Inserted(q, p, i), dead) && r == s.(queue := r.queue, state := r.state, live := r.live)
  {
    S.StepKeeps(s, S.Create(i));
    S.PositionIs(q, S.BOOT, p);
  }

  lemma Kept(base: set<nat>, k: Kernel, step: Step, r: Kernel)
    requires Coherent(base, k) && Next(k, step, r) && Harmless(k, step) && Lost(step) == {}
    ensures Coherent(base, r)
  {
    hide Coherent, Next, Harmless;
    StepKeeps(base, k, step, r);
    assert base + {} == base;
  }

  /** Where a kernel task can be spawned, on the frame `f`. */
  ghost predicate Room(k: Kernel, i: nat, f: nat) {
    && |k.pool| == MAX_TASKS && |k.sys.mem| >= P.TOTAL_FRAMES && f !in k.sys.used && f < P.TOTAL_FRAMES
    && i < MAX_TASKS && k.pool[i].kernelStack == 0 && k.pool[i].pageDir == 0
  }

  lemma Spawns(base: set<nat>, k: Kernel, i: nat, id: u32, f: nat, x: Frame)
    requires Room(k, i, f) && Coherent(base, k) && x.Data?
    ensures S.Legal(k.sched, S.Create(i + 1)) && AfterSpawn(k, i, id, f, x).pool == k.pool[i := KernelTask(id, f)]
    ensures Next(k, Spawn(i, KernelTask(id, f), {}), AfterSpawn(k, i, id, f, x)) && Coherent(base, AfterSpawn(k, i, id, f, x))
  {
    hide Coherent, Next, S.Next, S.Legal, Settled;
    SlotEmpty(base, k, i);
    KernelSpawns(base, k, i, id, f, x);
  }

  lemma SlotEmpty(base: set<nat>, k: Kernel, i: nat)
    requires |k.pool| == MAX_TASKS && Coherent(base, k) && i < MAX_TASKS && k.pool[i].kernelStack == 0 && k.pool[i].pageDir == 0
    ensures Settled(k)[i] == FREE && S.Legal(k.sched, S.Create(i + 1)) && |k.sys.mem| >= P.TOTAL_FRAMES
    ensures k.pool[i].userStack == 0 && !k.pool[i].user && k.pool[i].userStackTop == 0
  {
    LinkedIs(base, k, i);
    if !Passing(k, i) {
      assert SlotOk(k.sys, Settled(k)[i]);
    }
  }

  lemma Turn(base: set<nat>, k: Kernel, q: seq<nat>, dead: set<nat>) returns (r: Kernel)
    requires Coherent(base, k) && Queued(k.sched, q, dead) && |q| > 1 && q[0] !in dead
    ensures Next(k, Event(S.Yield), r) && Coherent(base, r) && Queued(r.sched, Turned(q), dead)
    ensures r == k.(sched := r.sched) && r.sched == k.sched.(queue := r.sched.queue, state := r.sched.state, slice := S.TIME_SLICE)
  {
    Switches(k.sched, q, dead);
    hide S.Inv, S.Next, S.Legal, Queued, Coherent;
    r := k.(sched := S.Next(k.sched, S.Yield));
    Kept(base, k, Event(S.Yield), r);
  }

  lemma Exits(base: set<nat>, k: Kernel, q: seq<nat>) returns (r: Kernel)
    requires Coherent(base, k) && Queued(k.sched, q, {}) && q[|q| - 1] != S.BOOT
    ensures Next(k, Event(S.Exit), r) && Coherent(base, r) && Queued(r.sched, q, {q[|q| - 1]})
    ensures r == k.(sched := k.sched.(state := r.sched.state))
  {
    hide Coherent;
    S.StepKeeps(k.sched, S.Exit);
    r := k.(sched := S.Next(k.sched, S.Exit));
    Kept(base, k, Event(S.Exit), r);
  }

  // ----- A reap under way

  function Boot(s: Sys): (k: Kernel) {
    Kernel(S.Initial(), s, NoTasks(), {}, Idle)
  }

  /** The boot task has unlinked the dead task in slot 0, whose stack is `f`. */
  ghost predicate Reaping(base: set<nat>, f: nat, k: Kernel) {
    && Coherent(base, k) && Queued(k.sched, [0], {1}) && k.sched.reaped == 1 && k.sched.tail == -1 && k.todo == {f} && k.load == Idle
    && |k.pool| == MAX_TASKS && k.pool[0].kernelStack == f && k.pool[0].pageDir == 0 && k.pool[1] == FREE
    && f in k.sys.used && |k.sys.mem| >= P.TOTAL_FRAMES > f
  }

  /** Spawning a task, and the queue it leaves. */
  lemma Adds(base: set<nat>, k: Kernel, q: seq<nat>, dead: set<nat>, p: nat, i: nat, id: u32, f: nat, x: Frame) returns (r: Kernel)
    requires Room(k, i, f) && Coherent(base, k) && x.Data?
    requires Queued(k.sched, q, dead) && p < |q| && q[p] == S.BOOT
    ensures r == Kernel(r.sched, Fresh(k.sys, f, x), k.pool[i := KernelTask(id, f)], k.todo, k.load)
    ensures r.sched == k.sched.(queue := r.sched.queue, state := r.sched.state, live := r.sched.live)
    ensures Next(k, Spawn(i, KernelTask(id, f), {}), r) && Coherent(base, r) && Queued(r.sched, Inserted(q, p, i + 1), dead)
  {
    hide Coherent, S.Next, S.Legal, Settled, Fresh, Next, Queued, KernelTask;
    NotQueued(base, k, i, q, dead);
    Spawns(base, k, i, id, f, x);
    r := AfterSpawn(k, i, id, f, x);
    Created(k.sched, q, dead, p, i + 1);
  }

  lemma NotQueued(base: set<nat>, k: Kernel, i: nat, q: seq<nat>, dead: set<nat>)
    requires |k.pool| == MAX_TASKS && Coherent(base, k) && i < MAX_TASKS && k.pool[i].kernelStack == 0 && Queued(k.sched, q, dead)
    ensures i + 1 !in q && i + 1 != k.sched.reaped
  {
    LinkedIs(base, k, i);
  }

  lemma Drops(s: S.Sched, q: seq<nat>, i: nat)
    requires Queued(s, [i] + q, {i}) && q != [] && q[|q| - 1] == S.BOOT && 0 < i < S.TASKS && s.reaped == -1 && s.tail == -1
    ensures S.Legal(s, S.Unlink(i)) && S.Next(s, S.Unlink(i)) == s.(queue := q, reaped := i)
    ensures Queued(S.Next(s, S.Unlink(i)), q, {i})
  {
    hide S.Inv, S.NoDup;
    QueueFacts(s, [i] + q, {i});
    LinkedIsLive(s, i);
    S.StepKeeps(s, S.Unlink(i));
    S.PositionIs(s.queue, i, 0);
    assert S.Without(s.queue, i) == q;
  }

  lemma LinkedIsLive(s: S.Sched, i: nat)
    requires S.Inv(s) && s.queue != [] && s.queue[0] == i
    ensures S.NoDup(s.queue) && |s.live| == S.TASKS && i < S.TASKS && s.live[i]
  {
  }

  lemma HoldsStackOnly(mem: Phys, t: Tcb)
    requires t.kernelStack != 0 && t.pageDir == 0
    ensures Held(mem, t) == {t.kernelStack}
  {
  }

  lemma Unlinks(base: set<nat>, k: Kernel, i: nat, f: nat, q: seq<nat>) returns (r: Kernel)
    requires |k.pool| == MAX_TASKS && Coherent(base, k) && i < MAX_TASKS && k.load.Idle? && k.sched.reaped == -1 && k.sched.tail == -1
    requires k.pool[i].kernelStack == f != 0 && k.pool[i].pageDir == 0
    requires Queued(k.sched, [i + 1] + q, {i + 1}) && q != [] && q[|q| - 1] == S.BOOT
    ensures r == Kernel(k.sched.(queue := q, reaped := i + 1), k.sys, k.pool, {f}, Idle)
    ensures Next(k, Unlink(i), r) && Coherent(base, r) && Queued(r.sched, q, {i + 1})
  {
    hide Coherent, Queued, S.Next, S.Legal, Held, Settled;
    Drops(k.sched, q, i + 1);
    HoldsStackOnly(k.sys.mem, k.pool[i]);
    r := k.(sched := S.Next(k.sched, S.Unlink(i + 1)), todo := Held(k.sys.mem, k.pool[i]));
    assert Next(k, Unlink(i), r);
    hide Next;
    Kept(base, k, Unlink(i), r);
  }

  lemma BootFacts(s: Sys)
    requires SysOk(s, {}) && KernelLow(s)
    ensures Coherent(s.used, Boot(s)) && Queued(Boot(s).sched, [0], {}) && |s.mem| >= P.TOTAL_FRAMES
    ensures Boot(s).sched.reaped == -1 && Boot(s).sched.tail == -1 && Boot(s) == Kernel(Boot(s).sched, s, NoTasks(), {}, Idle)
  {
    BootCoherent(s, NoTasks());
  }

  /** A task is spawned, runs, exits, and is unlinked by the boot task. */
  lemma Dies(base: set<nat>, k: Kernel, f: nat, x: Frame) returns (steps: seq<Step>, ks: seq<Kernel>)
    requires Coherent(base, k) && Queued(k.sched, [0], {}) && k.sched.reaped == -1 && k.sched.tail == -1 && k.load.Idle?
    requires Room(k, 0, f) && x.Data? && f != 0
    ensures IsRun(steps, ks) && ks[0] == k
    ensures var r := ks[|steps|];
            && Coherent(base, r) && Queued(r.sched, [0], {1}) && r.sched.reaped == 1 && r.sched.tail == -1
            && r == Kernel(r.sched, Fresh(k.sys, f, x), k.pool[0 := KernelTask(1, f)], {f}, Idle)
  {
    hide Coherent, Queued, Next, Fresh;
    var k1 := Adds(base, k, [0], {}, 0, 0, 1, f, x);
    assert Inserted([0], 0, 1) == [1, 0] && Turned([1, 0]) == [0, 1] && Turned([0, 1]) == [1] + [0];
    var k2 := Turn(base, k1, [1, 0], {});
    var k3 := Exits(base, k2, [0, 1]);
    var k4 := Turn(base, k3, [0, 1], {1});
    var k5 := Unlinks(base, k4, 0, f, [0]);
    steps := [Spawn(0, KernelTask(1, f), {}), Event(S.Yield), Event(S.Exit), Event(S.Yield), Unlink(0)];
    ks := [k, k1, k2, k3, k4, k5];
  }

  lemma Reaches(s: Sys, f: nat, x: Frame) returns (steps: seq<Step>, ks: seq<Kernel>)
    requires SysOk(s, {}) && KernelLow(s) && FreePair(s.used, f) && x.Data?
    ensures IsRun(steps, ks) && ks[0] == Boot(s) && Reaping(s.used, f, ks[|steps|]) && f + 1 !in ks[|steps|].sys.used
  {
    hide Coherent, Queued, Next, SysOk, KernelLow, Boot, NoTasks;
    FreeIsNotNull(s, f);
    BootFacts(s);
    steps, ks := Dies(s.used, Boot(s), f, x);
  }

  lemma FreeIsNotNull(s: Sys, f: nat)
    requires SysOk(s, {}) && f !in s.used
    ensures f != 0
  {
    FreshIsForeign(s, {}, f);
  }

  // ----- Overtaken

  lemma Loads(base: set<nat>, k: Kernel, f: nat) returns (r: Kernel)
    requires Coherent(base, k) && BootRuns(k) && k.load.Idle? && f in k.todo
    ensures r == k.(load := Loaded(f, WordOf(k.sys.used, f))) && Next(k, LoadWord(f), r) && Coherent(base, r)
  {
    r := k.(load := Loaded(f, WordOf(k.sys.used, f)));
    hide Coherent;
    Kept(base, k, LoadWord(f), r);
  }

  /** The boot task frees the stack undisturbed. */
  lemma Gives(base: set<nat>, k: Kernel, f: nat) returns (r: Kernel, m: Kernel)
    requires Coherent(base, k) && BootRuns(k) && k.load.Idle? && f in k.todo
    ensures Next(k, LoadWord(f), m) && Next(m, StoreWord, r) && Coherent(base, m) && Coherent(base, r)
    ensures r.sys == Released(k.sys, {f}) && r == k.(sys := r.sys, todo := k.todo - {f})
  {
    m := Loads(base, k, f);
    r := k.(sys := StoredBack(m.sys, m.load), todo := k.todo - {f});
    assert Next(m, StoreWord, r) && Harmless(m, StoreWord);
    StoreIsFree(base, m, r);
    hide Coherent, WordOf, StoredBack;
    Kept(base, m, StoreWord, r);
  }

  /** A task is spawned on a frame of the loaded word, and the store frees it. */
  lemma LosesFrame(base: set<nat>, k: Kernel, f: nat, x: Frame) returns (steps: seq<Step>, ks: seq<Kernel>)
    requires Reaping(base, f, k) && x.Data? && f + 1 < P.TOTAL_FRAMES && SameWord(f, f + 1) && f + 1 !in k.sys.used
    ensures IsRun(steps, ks) && ks[0] == k
    ensures var r := ks[|steps|];
            && |r.pool| == MAX_TASKS && Linked(r, 1) && Holds(r.sys.mem, r.pool[1], f + 1) && f + 1 !in r.sys.used
            && r.sched.reaped == 1 && r.load.Idle? && !Coherent(base, r)
  {
    hide Coherent, Next, S.Inv;
    var k1 := Loads(base, k, f);
    var k2 := Adds(base, k1, [0], {1}, 0, 1, 2, f + 1, x);
    assert Inserted([0], 0, 2) == [2, 0];
    var k3 := k2.(sys := StoredBack(k2.sys, k2.load), todo := k2.todo - {f}, load := Idle);
    Stores(k2, k3);
    assert f + 1 in WordOf(k2.sys.used, f) && f + 1 !in WordOf(k.sys.used, f);
    assert !Harmless(k2, StoreWord);
    StepExact(base, k2, StoreWord, k3);
    assert base + {} == base;
    steps, ks := [LoadWord(f), Spawn(1, KernelTask(2, f + 1), {}), StoreWord], [k, k1, k2, k3];
  }

  lemma Stores(k: Kernel, r: Kernel)
    requires BootRuns(k) && k.load.Loaded? && r == k.(sys := StoredBack(k.sys, k.load), todo := k.todo - {k.load.frame}, load := Idle)
    ensures Next(k, StoreWord, r)
  {
  }

  /** While the boot task has loaded a bitmap word to free the stack, a task is spawned on a frame of that word: the store frees it. */
  lemma LostFrame(s: Sys, f: nat, x: Frame) returns (steps: seq<Step>, ks: seq<Kernel>)
    requires SysOk(s, {}) && KernelLow(s) && FreePair(s.used, f) && x.Data?
    ensures IsRun(steps, ks) && ks[0] == Boot(s)
    ensures var r := ks[|steps|];
            && |r.pool| == MAX_TASKS && Linked(r, 1) && Holds(r.sys.mem, r.pool[1], f + 1) && f + 1 !in r.sys.used
            && r.sched.reaped == 1 && r.load.Idle? && !Coherent(s.used, r)
  {
    hide Coherent, Queued, Next, KernelLow, SysOk, Boot, Reaping;
    var a, ka := Reaches(s, f, x);
    var b, kb := LosesFrame(s.used, ka[|a|], f, x);
    steps, ks := Join(a, ka, b, kb);
  }

  lemma ReusesStack(base: set<nat>, k: Kernel, f: nat, x: Frame) returns (steps: seq<Step>, ks: seq<Kernel>)
    requires Reaping(base, f, k) && x.Data?
    ensures IsRun(steps, ks) && ks[0] == k
    ensures var r := ks[|steps|];
            Coherent(base, r) && r.sched.reaped == 1 && Linked(r, 1) && r.pool == k.pool[1 := KernelTask(2, f)]
  {
    hide Coherent, Next, S.Inv;
    var k2, k1 := Gives(base, k, f);
    var k3 := Adds(base, k2, [0], {1}, 0, 1, 2, f, x);
    assert Inserted([0], 0, 2) == [2, 0];
    steps, ks := [LoadWord(f), StoreWord, Spawn(1, KernelTask(2, f), {})], [k, k1, k2, k3];
  }

  /** While the boot task is between freeing the stack and zeroing the slot, a task is spawned on that stack. */
  lemma ReusedStack(s: Sys, f: nat, x: Frame) returns (steps: seq<Step>, ks: seq<Kernel>)
    requires SysOk(s, {}) && KernelLow(s) && FreePair(s.used, f) && x.Data?
    ensures IsRun(steps, ks) && ks[0] == Boot(s)
    ensures var r := ks[|steps|];
            && Coherent(s.used, r) && r.sched.reaped == 1 && |r.pool| == MAX_TASKS && Linked(r, 1)
            && Holds(r.sys.mem, r.pool[0], f) && Holds(r.sys.mem, r.pool[1], f) && !Separate(r.sys.mem, r.pool)
  {
    hide Coherent, Queued, Next, KernelLow, SysOk, Boot;
    FreeIsNotNull(s, f);
    var a, ka := Reaches(s, f, x);
    var b, kb := ReusesStack(s.used, ka[|a|], f, x);
    steps, ks := Join(a, ka, b, kb);
  }

  /** The boot task zeroes the slot of the dead task up to the fields that mark it free. */
  lemma Clears(base: set<nat>, k: Kernel, q: seq<nat>, i: nat) returns (r: Kernel)
    requires Coherent(base, k) && Queued(k.sched, q, {i + 1}) && BootRuns(k) && k.sched.reaped == i + 1 && k.todo == {} && k.load.Idle?
    requires |k.pool| == MAX_TASKS
    ensures Next(k, Clear, r) && Coherent(base, r) && Queued(r.sched, q, {}) && i < MAX_TASKS
    ensures r == k.(sched := r.sched, pool := k.pool[i := Half(k.pool[i])])
    ensures r.sched == k.sched.(live := r.sched.live, state := r.sched.state, reaped := -1, tail := i + 1)
  {
    LinkedIs(base, k, 0);
    r := k.(sched := S.Next(k.sched, S.Clear), pool := k.pool[i := Half(k.pool[i])]);
    S.StepKeeps(k.sched, S.Clear);
    hide Coherent, S.Inv;
    Kept(base, k, Clear, r);
  }

  lemma CutsQueue(base: set<nat>, k: Kernel, f: nat, x: Frame) returns (steps: seq<Step>, ks: seq<Kernel>)
    requires Reaping(base, f, k) && x.Data?
    ensures IsRun(steps, ks) && ks[0] == k
    ensures var r := ks[|steps|];
            && r.sched.queue == [] && |r.pool| == MAX_TASKS && r.pool[0] == KernelTask(2, f) && f in r.sys.used && !Coherent(base, r)
  {
    hide Coherent, Next, S.Inv;
    var k2, k1 := Gives(base, k, f);
    var k3 := Clears(base, k2, [0], 0);
    var k4 := Adds(base, k3, [0], {}, 0, 0, 2, f, x);
    assert Inserted([0], 0, 1) == [1, 0];
    var k5 := k4.(sched := k4.sched.(queue := [], tail := -1));
    Finishes(base, k4, [1, 0], k5);
    steps, ks := [LoadWord(f), StoreWord, Clear, Spawn(0, KernelTask(2, f), {}), Finish], [k, k1, k2, k3, k4, k5];
  }

  lemma Finishes(base: set<nat>, k: Kernel, q: seq<nat>, r: Kernel)
    requires Coherent(base, k) && Queued(k.sched, q, {}) && BootRuns(k) && k.load.Idle? && k.sched.tail == 1 && 1 in q
    requires |k.pool| == MAX_TASKS && Rest(k.pool[0]) == k.pool[0] && r == k.(sched := k.sched.(queue := [], tail := -1))
    ensures Next(k, Finish, r) && !Coherent(base, r)
  {
    hide WorldOk;
    assert k.pool[0 := Rest(k.pool[0])] == k.pool;
    assert base + {} == base;
    StepExact(base, k, Finish, r);
  }

  /** While the boot task is still zeroing the slot, a task is created in it: the rest of the zeroing cuts the queue. */
  lemma CutQueue(s: Sys, f: nat, x: Frame) returns (steps: seq<Step>, ks: seq<Kernel>)
    requires SysOk(s, {}) && KernelLow(s) && FreePair(s.used, f) && x.Data?
    ensures IsRun(steps, ks) && ks[0] == Boot(s)
    ensures var r := ks[|steps|];
            && r.sched.queue == [] && |r.pool| == MAX_TASKS && r.pool[0].kernelStack == f && f in r.sys.used && !Coherent(s.used, r)
  {
    hide Coherent, Queued, Next, KernelLow, SysOk, Boot, Reaping;
    var a, ka := Reaches(s, f, x);
    ReapingBound(s.used, f, ka[|a|]);
    var b, kb := CutsQueue(s.used, ka[|a|], f, x);
    steps, ks := Join(a, ka, b, kb);
  }

  lemma ReapingBound(base: set<nat>, f: nat, k: Kernel)
    requires Reaping(base, f, k)
    ensures f < P.TOTAL_FRAMES
  {
  }
}
