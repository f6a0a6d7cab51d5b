/**
 The kernel state machine and the processor together: tasks that are linked run
 on stacks of their own, so that each is resumed where it was switched out.
 */
module KernelContexts {
  import opened Pmm
  import opened AddressSpace
  import opened TaskSpec
  import opened KernelSteps
  import opened KernelRuns
  import S = SchedSpec
  import C = Context

  /** The linked tasks are those with a context, each on its stack page; the boot task runs on reserved memory. */
  ghost predicate Follows(k: Kernel, w: C.World) {
    && C.Sound(w) && |w.xs| == S.TASKS && |w.c.mem| >= 1024 * TOTAL_FRAMES && |k.pool| == MAX_TASKS
    && |k.sched.queue| > 0 && w.cur == S.Current(k.sched) && (forall t :: t in w.tasks <==> t in k.sched.queue)
    && (forall i: nat :: i < MAX_TASKS && Linked(k, i) ==> OnStack(w.k, i + 1, k.pool[i].kernelStack))
    && forall a: nat :: C.InStack(w.k, S.BOOT, a) ==> IsReserved(a / 1024)
  }

  predicate OnStack(k: C.Stacks, t: nat, f: nat) {
    t < |k.lo| == |k.hi| && k.lo[t] == 1024 * f && k.hi[t] == 1024 * f + 1024
  }

  /** What the processor does in a step: it switches when the running task changes, and a spawn lays out the new stack. */
  predicate Matches(k: Kernel, step: Step, r: Kernel, c: C.Step)
    requires |k.sched.queue| > 0 && |r.sched.queue| > 0
  {
    match step
    case Spawn(i, t, _) => c.Create? && c.t == i + 1 && c.f == t.kernelStack
    case Unlink(i) => c == C.Retire(i + 1)
    case _ => if S.Current(r.sched) != S.Current(k.sched) then c.Switch? && c.to == S.Current(r.sched) else c.Work?
  }

  /** What the running task owes the processor: it keeps off the other stacks, and has seven words left when it is switched out. */
  ghost predicate Behaves(w: C.World, c: C.Step)
    requires C.Shaped(w)
  {
    match c
    case Work(d) => C.Works(w, d)
    case Switch(_, _) => w.k.lo[w.cur] + 7 <= w.c.esp
    case _ => true
  }

  /** The boot task alone, on reserved memory. */
  lemma BootFollows(k: Kernel, w: C.World)
    requires k.sched == S.Initial() && |k.pool| == MAX_TASKS && C.Shaped(w) && w.tasks == {S.BOOT} && w.cur == S.BOOT
    requires |w.xs| == S.TASKS && |w.c.mem| >= 1024 * TOTAL_FRAMES && w.k.lo[S.BOOT] <= w.c.esp <= w.k.hi[S.BOOT]
    requires forall a: nat :: C.InStack(w.k, S.BOOT, a) ==> IsReserved(a / 1024)
    ensures Follows(k, w)
  {
  }

  // ----- One step

  lemma QueueMoves(base: set<nat>, k: Kernel, step: Step, r: Kernel)
    requires Coherent(base, k) && Next(k, step, r) && Harmless(k, step)
    ensures |k.sched.queue| > 0 && |r.sched.queue| > 0 && (!step.Event? ==> S.Current(r.sched) == S.Current(k.sched))
    ensures forall t :: t in r.sched.queue <==>
              (t in k.sched.queue || (step.Spawn? && t == step.slot + 1)) && !(step.Unlink? && t == step.slot + 1)
  {
    hide Coherent, S.Inv, S.Next, S.Legal, S.Quiet, Settled, Spawned, Failed;
    KernelFacts(base, k);
    match step
    case Event(e) => EventMoves(k.sched, e);
    case Spawn(i, _, _) => CreateMoves(k.sched, i + 1);
    case Unlink(i) => UnlinkMoves(k.sched, i + 1);
    case Clear => ZeroMoves(k.sched, S.Clear);
    case Finish => ZeroMoves(k.sched, S.Finish);
    case _ =>
  }

  lemma CreateMoves(s: S.Sched, i: nat)
    requires S.Inv(s) && S.Legal(s, S.Create(i))
    ensures var r := S.Next(s, S.Create(i));
            |s.queue| > 0 && |r.queue| > 0 && S.Current(r) == S.Current(s) && forall t :: t in r.queue <==> t in s.queue || t == i
  {
    S.InsertNoDup(s.queue, i);
    hide S.Insert;
  }

  lemma UnlinkMoves(s: S.Sched, i: nat)
    requires S.Inv(s) && S.Legal(s, S.Unlink(i))
    ensures var r := S.Next(s, S.Unlink(i));
            && |s.queue| > 0 && |r.queue| > 0 && S.Current(r) == S.Current(s) && i != S.Current(s) && i in s.queue
            && forall t :: t in r.queue <==> t in s.queue && t != i
  {
    S.WithoutNoDup(s.queue, i);
    hide S.Without;
  }

  lemma ZeroMoves(s: S.Sched, step: S.Step)
    requires S.Legal(s, step) && (step.Clear? || step.Finish?) && S.Quiet(s, step)
    ensures |s.queue| > 0 && S.Next(s, step).queue == s.queue
  {
  }

  lemma EventMoves(s: S.Sched, e: S.Step)
    requires S.Inv(s) && S.Legal(s, e) && IsEvent(e)
    ensures |S.Next(s, e).queue| > 0 && forall t :: t in S.Next(s, e).queue <==> t in s.queue
  {
    EventKeeps(s, e);
    var r := S.Next(s, e);
    hide S.Next, S.Legal, S.StatesOk;
    assert forall t: nat :: t in s.queue ==> t < S.TASKS;
    assert forall t: nat :: t in r.queue ==> t < S.TASKS;
  }

  /** A new stack page lies outside the stacks of all linked tasks and of the boot task. */
  lemma SpawnFits(base: set<nat>, k: Kernel, step: Step, r: Kernel, w: C.World)
    requires Coherent(base, k) && Next(k, step, r) && step.Spawn? && Follows(k, w)
    ensures C.CanCreate(w, step.slot + 1, step.task.kernelStack)
  {
    hide Coherent, C.Sound, Next, OnStack;
    var f := step.task.kernelStack;
    FollowsShaped(k, w);
    SpawnFresh(base, k, step, r);
    forall u, a: nat | u in w.tasks && C.InStack(w.k, u, a) ensures !(1024 * f <= a < 1024 * f + 1024) {
      if u != S.BOOT {
        StackInUse(base, k, u - 1, w);
        OffPage(w.k, u, k.pool[u - 1].kernelStack, a, f);
      }
    }
  }

  lemma OffPage(k: C.Stacks, t: nat, g: nat, a: nat, f: nat)
    requires OnStack(k, t, g) && C.InStack(k, t, a) && f != g
    ensures !(1024 * f <= a < 1024 * f + 1024)
  {
  }

  lemma SpawnFresh(base: set<nat>, k: Kernel, step: Step, r: Kernel)
    requires Coherent(base, k) && Next(k, step, r) && step.Spawn?
    ensures step.slot < MAX_TASKS && step.slot + 1 !in k.sched.queue
    ensures step.task.kernelStack !in k.sys.used && step.task.kernelStack < TOTAL_FRAMES && !IsReserved(step.task.kernelStack)
  {
    hide WorldOk, SysOk, Settled;
    assert step.task.kernelStack in Held(r.sys.mem, step.task);
  }

  lemma StackInUse(base: set<nat>, k: Kernel, i: nat, w: C.World)
    requires Coherent(base, k) && Follows(k, w) && i + 1 in w.tasks
    ensures i < MAX_TASKS && OnStack(w.k, i + 1, k.pool[i].kernelStack) && k.pool[i].kernelStack in k.sys.used
  {
    hide C.Sound;
    assert i + 1 < S.TASKS by {
      InQueue(base, k, i + 1);
    }
    LinkedIs(base, k, i);
    LinkedIsIntact(base, k, i, k.pool[i].kernelStack);
  }

  lemma InQueue(base: set<nat>, k: Kernel, t: nat)
    requires Coherent(base, k) && t in k.sched.queue
    ensures t < S.TASKS
  {
  }

  /** Every step of the kernel can be followed on the processor. */
  lemma StepLegal(base: set<nat>, k: Kernel, step: Step, r: Kernel, w: C.World, c: C.Step)
    requires Coherent(base, k) && Next(k, step, r) && Harmless(k, step) && Follows(k, w)
    requires |r.sched.queue| > 0 && Matches(k, step, r, c) && Behaves(w, c)
    ensures C.Legal(w, c)
  {
    QueueMoves(base, k, step, r);
    if step.Spawn? {
      SpawnFits(base, k, step, r, w);
    } else if step.Unlink? {
      UnlinkFits(base, k, step, r);
    } else if c.Switch? {
      CurrentQueued(r.sched);
    }
    hide C.Sound, Coherent, Next, C.Works, C.CanCreate, Harmless, OnStack, C.InStack;
  }

  /** And what follows it stays in step. */
  lemma StepFollows(base: set<nat>, k: Kernel, step: Step, r: Kernel, w: C.World, c: C.Step)
    requires Coherent(base, k) && Next(k, step, r) && Harmless(k, step) && Follows(k, w)
    requires |r.sched.queue| > 0 && Matches(k, step, r, c) && Behaves(w, c)
    ensures C.Legal(w, c) && Follows(r, C.Next(w, c))
  {
    hide C.Sound, Coherent, Next, C.Works, C.CanCreate, C.Next, C.Legal, Harmless, OnStack, C.InStack, Behaves;
    FollowsShaped(k, w);
    StepLegal(base, k, step, r, w, c);
    QueueMoves(base, k, step, r);
    ContextMoves(w, c);
    StacksStay(base, k, step, r, w, c, C.Next(w, c));
  }

  lemma FollowsShaped(k: Kernel, w: C.World)
    requires Follows(k, w)
    ensures C.Shaped(w) && |w.k.lo| == |w.k.hi| == S.TASKS && |k.sched.queue| > 0 && w.cur == S.Current(k.sched)
  {
  }

  lemma CurrentQueued(s: S.Sched)
    requires |s.queue| > 0
    ensures S.Current(s) in s.queue
  {
  }

  lemma UnlinkFits(base: set<nat>, k: Kernel, step: Step, r: Kernel)
    requires Coherent(base, k) && Next(k, step, r) && step.Unlink?
    ensures step.slot + 1 in k.sched.queue && |k.sched.queue| > 0 && step.slot + 1 != S.Current(k.sched)
  {
    KernelFacts(base, k);
    hide Coherent, S.Inv, S.Next, S.Legal;
    UnlinkMoves(k.sched, step.slot + 1);
  }

  /** The stacks after a step of the processor. */
  function StacksAfter(k: C.Stacks, c: C.Step): (r: C.Stacks) {
    if c.Create? && c.t < |k.lo| == |k.hi| then C.Stacks(k.lo[c.t := 1024 * c.f], k.hi[c.t := 1024 * c.f + 1024]) else k
  }

  /** What a step of the processor changes of the tasks and their stacks. */
  lemma ContextMoves(w: C.World, c: C.Step)
    requires C.Legal(w, c)
    ensures var v := C.Next(w, c);
            && C.Sound(v) && |v.xs| == |w.xs| && |v.c.mem| == |w.c.mem| && v.cur == (if c.Switch? then c.to else w.cur)
            && v.tasks == (if c.Create? then w.tasks + {c.t} else if c.Retire? then w.tasks - {c.t} else w.tasks)
            && v.k == StacksAfter(w.k, c)
  {
    hide C.Sound, C.Installed, C.StartFrame, C.Switched, C.Called, C.CanCreate, C.InStack;
    C.StepKeeps(w, c);
    ShapeOf(w);
    if c.Switch? {
      C.SwitchWrites(w, c.to, c.ret);
    } else if c.Create? {
      SlotOf(w, c.t, c.f);
    }
  }

  lemma ShapeOf(w: C.World)
    requires C.Sound(w)
    ensures C.Shaped(w)
  {
  }

  lemma SlotOf(w: C.World, t: nat, f: nat)
    requires C.Shaped(w) && C.CanCreate(w, t, f)
    ensures t < |w.k.lo| == |w.k.hi| == |w.xs|
  {
  }

  lemma StacksStay(base: set<nat>, k: Kernel, step: Step, r: Kernel, w: C.World, c: C.Step, v: C.World)
    requires |w.k.lo| == |w.k.hi| == |v.k.lo| == |v.k.hi| == S.TASKS && v.k == StacksAfter(w.k, c)
    requires Coherent(base, k) && Next(k, step, r) && Harmless(k, step) && Follows(k, w)
    requires |k.sched.queue| > 0 && |r.sched.queue| > 0 && Matches(k, step, r, c)
    ensures |r.pool| == MAX_TASKS && forall i: nat :: i < MAX_TASKS && Linked(r, i) ==> OnStack(v.k, i + 1, r.pool[i].kernelStack)
    ensures forall a: nat :: C.InStack(v.k, S.BOOT, a) <==> C.InStack(w.k, S.BOOT, a)
  {
    hide C.Sound, Coherent, Next, Harmless;
    QueueMoves(base, k, step, r);
    StepKeeps(base, k, step, r);
    PoolLength(base + Lost(step), r);
    forall i: nat | i < MAX_TASKS && Linked(r, i) ensures OnStack(v.k, i + 1, r.pool[i].kernelStack) {
      if Linked(k, i) {
        StaysLinked(base, k, step, r, i);
        if step.Spawn? {
          SpawnFresh(base, k, step, r);
        }
      } else {
        SpawnSlot(base, k, step, r);
      }
    }
  }

  lemma SpawnSlot(base: set<nat>, k: Kernel, step: Step, r: Kernel)
    requires Coherent(base, k) && Next(k, step, r) && step.Spawn?
    ensures step.slot < |r.pool| && r.pool[step.slot].kernelStack == step.task.kernelStack
  {
    hide Coherent, Spawned, S.Legal, S.Next;
  }

  lemma PoolLength(base: set<nat>, k: Kernel)
    requires Coherent(base, k)
    ensures |k.pool| == MAX_TASKS
  {
  }

  // ----- Runs

  /** Step by step the processor does what the kernel asks for, and the running task behaves. */
  ghost predicate Together(steps: seq<Step>, ks: seq<Kernel>, cs: seq<C.Step>, ws: seq<C.World>) {
    && KernelRuns.IsRun(steps, ks) && |cs| == |steps| && |ws| == |ks| && (forall n :: 0 <= n < |ks| ==> |ks[n].sched.queue| > 0)
    && forall n :: 0 <= n < |steps| ==>
         && Matches(ks[n], steps[n], ks[n + 1], cs[n]) && (C.Shaped(ws[n]) ==> Behaves(ws[n], cs[n]))
         && (C.Legal(ws[n], cs[n]) ==> ws[n + 1] == C.Next(ws[n], cs[n]))
  }

  /** Any run of the kernel that does no harm is a run of the processor. */
  lemma {:induction false} RunFollows(base: set<nat>, steps: seq<Step>, ks: seq<Kernel>, cs: seq<C.Step>, ws: seq<C.World>, n: nat)
    requires Together(steps, ks, cs, ws) && Coherent(base, ks[0]) && Follows(ks[0], ws[0]) && n <= |steps|
    requires HarmlessRun(steps, ks, |steps|)
    ensures Follows(ks[n], ws[n]) && C.IsRun(ws[..n + 1], cs[..n])
  {
    hide Coherent, C.Legal, C.Next, Next, Behaves, Harmless, C.Sound, Matches;
    if n > 0 {
      RunFollows(base, steps, ks, cs, ws, n - 1);
      RunConserves(base, steps, ks, n - 1);
      FollowsShaped(ks[n - 1], ws[n - 1]);
      assert Matches(ks[n - 1], steps[n - 1], ks[n], cs[n - 1]);
      StepFollows(base + AllLost(steps, n - 1), ks[n - 1], steps[n - 1], ks[n], ws[n - 1], cs[n - 1]);
      LongerRun(ws, cs, n);
    }
  }

  lemma LongerRun(ws: seq<C.World>, cs: seq<C.Step>, n: nat)
    requires 0 < n <= |cs| < |ws| && C.IsRun(ws[..n], cs[..n - 1]) && C.Legal(ws[n - 1], cs[n - 1]) && ws[n] == C.Next(ws[n - 1], cs[n - 1])
    ensures C.IsRun(ws[..n + 1], cs[..n])
  {
    hide C.Legal, C.Next;
    forall i | 0 <= i < n
      ensures C.Legal(ws[..n + 1][i], cs[..n][i]) && ws[..n + 1][i + 1] == C.Next(ws[..n + 1][i], cs[..n][i])
    {
      if i < n - 1 {
        assert C.Legal(ws[..n][i], cs[..n - 1][i]) && ws[..n][i + 1] == C.Next(ws[..n][i], cs[..n - 1][i]);
      }
    }
  }

  /**
   So in any run of the kernel that does no harm, a task that was switched out in
   step `i` and comes to run again in step `j` has its callee-saved registers and
   its stack pointer, and goes on where it was.
   */
  lemma Resumes(base: set<nat>, steps: seq<Step>, ks: seq<Kernel>, cs: seq<C.Step>, ws: seq<C.World>, i: nat, j: nat, u: nat)
    requires Together(steps, ks, cs, ws) && Coherent(base, ks[0]) && Follows(ks[0], ws[0]) && HarmlessRun(steps, ks, |steps|)
    requires i < j < |steps| && S.Current(ks[i].sched) == u == S.Current(ks[j + 1].sched)
    requires forall l :: i < l <= j ==> S.Current(ks[l].sched) != u && (l < j ==> !(steps[l].Unlink? && steps[l].slot + 1 == u))
    ensures cs[i].Switch? && 2 <= ws[i].c.esp && C.Registers(ws[j + 1].c) == C.Suspended(ws[i].c, cs[i].ret)
  {
    hide Coherent, Next, Harmless, Behaves, Matches, Follows, C.Legal, C.Next, C.Spares, C.Registers, C.Suspended;
    RunFollows(base, steps, ks, cs, ws, |steps|);
    RunFollows(base, steps, ks, cs, ws, i);
    FollowsShaped(ks[i], ws[i]);
    assert ws[..|steps| + 1] == ws && cs[..|steps|] == cs;
    SwitchesAt(base, steps, ks, cs, ws, i);
    SwitchesAt(base, steps, ks, cs, ws, j);
    forall l | i < l < j ensures C.Spares(cs[l], u) {
      SparedAt(steps, ks, cs, ws, l, u);
    }
    C.Resumes(ws, cs, i, j, u);
  }

  lemma SwitchesAt(base: set<nat>, steps: seq<Step>, ks: seq<Kernel>, cs: seq<C.Step>, ws: seq<C.World>, n: nat)
    requires Together(steps, ks, cs, ws) && Coherent(base, ks[0]) && HarmlessRun(steps, ks, |steps|) && n < |steps|
    requires S.Current(ks[n].sched) != S.Current(ks[n + 1].sched)
    ensures cs[n].Switch? && cs[n].to == S.Current(ks[n + 1].sched)
  {
    hide Coherent, Next, Harmless, Behaves, C.Legal, C.Next;
    StaysUntilEvent(base, steps, ks, n);
    assert Matches(ks[n], steps[n], ks[n + 1], cs[n]);
  }

  lemma SparedAt(steps: seq<Step>, ks: seq<Kernel>, cs: seq<C.Step>, ws: seq<C.World>, n: nat, u: nat)
    requires Together(steps, ks, cs, ws) && n < |steps|
    requires S.Current(ks[n + 1].sched) != u && !(steps[n].Unlink? && steps[n].slot + 1 == u)
    ensures C.Spares(cs[n], u)
  {
    hide Next, Behaves, C.Legal, C.Next;
    assert Matches(ks[n], steps[n], ks[n + 1], cs[n]);
  }

  lemma StaysUntilEvent(base: set<nat>, steps: seq<Step>, ks: seq<Kernel>, n: nat)
    requires KernelRuns.IsRun(steps, ks) && Coherent(base, ks[0]) && HarmlessRun(steps, ks, |steps|) && n < |steps|
    ensures |ks[n].sched.queue| > 0 && |ks[n + 1].sched.queue| > 0
    ensures !steps[n].Event? ==> S.Current(ks[n + 1].sched) == S.Current(ks[n].sched)
  {
    hide Coherent, Next, Harmless;
    RunConserves(base, steps, ks, n);
    QueueMoves(base + AllLost(steps, n), ks[n], steps[n], ks[n + 1]);
  }
}
