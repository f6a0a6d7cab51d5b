/**
 What task_reap leaves behind when nothing comes between its steps.
 */
module Sweep {
  import opened TaskState
  import opened TaskSpec
  import opened KernelSteps
  import S = SchedSpec

  /** Slot `i` holds a dead task. */
  predicate Doomed(k: Kernel, i: nat) {
    i < |k.pool| && i + 1 < |k.sched.state| && k.sched.state[i + 1] == Dead && k.pool[i].kernelStack != 0
  }

  /** Unlinked, its frames freed and its slot cleared. */
  ghost function Reaped(k: Kernel, i: nat): (r: Kernel)
    requires i < |k.pool| && |k.pool| < |k.sched.live| == |k.sched.state|
  {
    Kernel(k.sched.(queue := S.Without(k.sched.queue, i + 1), live := k.sched.live[i + 1 := false],
                    state := k.sched.state[i + 1 := Ready]),
           Released(k.sys, Held(k.sys.mem, k.pool[i])), k.pool[i := FREE], {}, k.load)
  }

  /** A frame some dead task below `n` held. */
  ghost predicate SweptFrame(k: Kernel, n: nat, f: nat) {
    exists i: nat :: i < n && Doomed(k, i) && Holds(k.sys.mem, k.pool[i], f)
  }

  predicate SweptTask(k: Kernel, n: nat, i: nat) {
    0 < i <= n && Doomed(k, i - 1)
  }

  ghost predicate SweptSched(k0: Kernel, n: nat, s: S.Sched) {
    && s == k0.sched.(queue := s.queue, live := s.live, state := s.state) && |s.state| == |s.live| == S.TASKS == |k0.sched.state|
    && (forall i: nat :: i < S.TASKS ==> s.state[i] == if SweptTask(k0, n, i) then Ready else k0.sched.state[i])
    && (forall i: nat :: i in s.queue <==> i in k0.sched.queue && !SweptTask(k0, n, i))
  }

  /** From `k0`, exactly the dead tasks below slot `n` are gone, with exactly their frames. */
  ghost predicate SweptTo(k0: Kernel, n: nat, k: Kernel) {
    && |k.pool| == |k0.pool| == MAX_TASKS && k.todo == k0.todo == {} && k.load == k0.load && SweptSched(k0, n, k.sched)
    && (forall i: nat :: i < MAX_TASKS ==> k.pool[i] == if SweptTask(k0, n, i + 1) then FREE else k0.pool[i])
    && k.sys == k0.sys.(used := k.sys.used)
    && (forall f: nat :: f in k.sys.used <==> f in k0.sys.used && !SweptFrame(k0, n, f))
  }

  lemma SweepStarts(base: set<nat>, k: Kernel)
    requires Coherent(base, k) && k.sched.reaped == -1
    ensures SweptTo(k, 0, k)
  {
  }

  lemma SweepSkips(k0: Kernel, n: nat, k: Kernel)
    requires SweptTo(k0, n, k) && n < MAX_TASKS && !Doomed(k, n)
    ensures SweptTo(k0, n + 1, k)
  {
    SameDoom(k0, n, k);
    forall f: nat ensures SweptFrame(k0, n + 1, f) <==> SweptFrame(k0, n, f) {
    }
  }

  lemma SameDoom(k0: Kernel, n: nat, k: Kernel)
    requires SweptTo(k0, n, k) && n < MAX_TASKS
    ensures (Doomed(k, n) <==> Doomed(k0, n)) && k.pool[n] == k0.pool[n]
  {
  }

  lemma SweepTakes(k0: Kernel, n: nat, k: Kernel)
    requires SweptTo(k0, n, k) && n < MAX_TASKS && Doomed(k, n) && S.Inv(k.sched)
    ensures SweptTo(k0, n + 1, Reaped(k, n))
  {
    SweepUnlinks(k0, n, k);
    hide S.Without, S.Inv, SweptSched;
    SameDoom(k0, n, k);
    forall f: nat ensures SweptFrame(k0, n + 1, f) <==> SweptFrame(k0, n, f) || Holds(k0.sys.mem, k0.pool[n], f) {
    }
  }

  lemma SweepUnlinks(k0: Kernel, n: nat, k: Kernel)
    requires SweptTo(k0, n, k) && n < MAX_TASKS && Doomed(k, n) && S.Inv(k.sched)
    ensures SweptSched(k0, n + 1, Reaped(k, n).sched)
  {
    hide S.Without, SweptFrame;
    SameDoom(k0, n, k);
    S.WithoutNoDup(k.sched.queue, n + 1);
  }

  /** Afterwards no slot holds a dead task. */
  lemma SweepEnds(base: set<nat>, k0: Kernel, k: Kernel)
    requires Coherent(base, k0) && SweptTo(k0, MAX_TASKS, k)
    ensures forall i: nat :: !Doomed(k, i)
  {
  }
}
