/**
 The two moments at which a reap can be overtaken: while a word of the bitmap is
 loaded, and while a control block is zeroed to the fields that mark it free.
 */
module KernelWindows {
  import opened TaskSpec
  import opened KernelSteps
  import opened KernelRuns
  import S = SchedSpec

  /** Nothing has been taken from a word since it was loaded. */
  ghost predicate WordKept(k: Kernel) {
    k.load.Loaded? ==> WordOf(k.sys.used, k.load.frame) == k.load.word
  }

  /** Nobody has overtaken the reap that is under way. */
  ghost predicate Calm(k: Kernel) {
    S.TailFree(k.sched) && WordKept(k)
  }

  /** The step takes no frame from a loaded word. */
  ghost predicate SparesWord(k: Kernel, r: Kernel) {
    k.load.Loaded? ==> forall g :: g in r.sys.used && g !in k.sys.used ==> !SameWord(k.load.frame, g)
  }

  /** The step takes neither a slot that is still being zeroed nor a frame from a loaded word. */
  ghost predicate Sparing(k: Kernel, step: Step, r: Kernel) {
    (step.Spawn? ==> step.slot + 1 != k.sched.tail) && SparesWord(k, r)
  }

  lemma WordStep(base: set<nat>, k: Kernel, step: Step, r: Kernel)
    requires Coherent(base, k) && Next(k, step, r)
    ensures step.StoreWord? ==> WordKept(r) && SparesWord(k, r) && (WordKept(k) <==> Harmless(k, step))
    ensures !step.StoreWord? ==> (WordKept(r) <==> WordKept(k) && SparesWord(k, r))
  {
    hide S.Inv, S.Next, S.Legal, WorldOk, PassingOk, Agrees, Settled, Spawned, Failed;
    if step.Spawn? || step.Fail? {
      SpawnSame(k, step, r);
      if k.load.Loaded? {
        WordTaken(k.sys.used, r.sys.used, k.load);
      }
    }
  }

  lemma WordTaken(u: set<nat>, v: set<nat>, load: Word)
    requires u <= v && load.Loaded? && load.word <= WordOf(u, load.frame)
    ensures WordOf(v, load.frame) == load.word <==>
              WordOf(u, load.frame) == load.word && forall g :: g in v && g !in u ==> !SameWord(load.frame, g)
  {
    forall g | g in v && g !in u && SameWord(load.frame, g) ensures WordOf(v, load.frame) != load.word {
      assert g in WordOf(v, load.frame) && g !in WordOf(u, load.frame);
    }
    assert WordOf(u, load.frame) <= WordOf(v, load.frame);
  }

  lemma TailStep(base: set<nat>, k: Kernel, step: Step, r: Kernel)
    requires Coherent(base, k) && Next(k, step, r)
    ensures step.StoreWord? ==> S.TailFree(r.sched) == S.TailFree(k.sched)
    ensures !step.StoreWord? ==> (Harmless(k, step) && S.TailFree(r.sched) <==>
                                S.TailFree(k.sched) && (step.Spawn? ==> step.slot + 1 != k.sched.tail))
  {
    hide S.Inv, S.Next, S.Legal, WorldOk, PassingOk, Agrees, TodoOk, Settled, Spawned, Failed;
    match step
    case Event(e) =>
      S.SparingStep(k.sched, e);
      EventKeeps(k.sched, e);
    case Spawn(i, _, _) => SpawnTail(base, k, step, r);
    case Unlink(i) =>
      S.SparingStep(k.sched, S.Unlink(i + 1));
      S.StepKeeps(k.sched, S.Unlink(i + 1));
    case Clear =>
      S.SparingStep(k.sched, S.Clear);
      S.StepKeeps(k.sched, S.Clear);
    case Finish =>
      S.SparingStep(k.sched, S.Finish);
      S.StepExact(k.sched, S.Finish);
    case _ =>
  }

  lemma SpawnTail(base: set<nat>, k: Kernel, step: Step, r: Kernel)
    requires Coherent(base, k) && Next(k, step, r) && step.Spawn?
    ensures S.TailFree(r.sched) <==> S.TailFree(k.sched) && step.slot + 1 != k.sched.tail
  {
    S.SparingStep(k.sched, S.Create(step.slot + 1));
    S.StepKeeps(k.sched, S.Create(step.slot + 1));
  }

  /** A step does no harm and leaves the reap calm exactly when it was calm and the step is sparing. */
  lemma SparingStep(base: set<nat>, k: Kernel, step: Step, r: Kernel)
    requires Coherent(base, k) && Next(k, step, r)
    ensures Harmless(k, step) && Calm(r) <==> Calm(k) && Sparing(k, step, r)
  {
    hide Coherent, Next, WordKept, SparesWord, S.TailFree, Harmless;
    WordStep(base, k, step, r);
    TailStep(base, k, step, r);
  }

  ghost predicate SparingRun(steps: seq<Step>, ks: seq<Kernel>, n: nat)
    requires |ks| == |steps| + 1 && n <= |steps|
  {
    forall m :: 0 <= m < n ==> Sparing(ks[m], steps[m], ks[m + 1])
  }

  lemma {:induction false} CalmExact(base: set<nat>, steps: seq<Step>, ks: seq<Kernel>, n: nat)
    requires IsRun(steps, ks) && Coherent(base, ks[0]) && Calm(ks[0]) && n <= |steps|
    ensures HarmlessRun(steps, ks, n) && Calm(ks[n]) <==> SparingRun(steps, ks, n)
  {
    hide Coherent, Next, Calm, Sparing, Harmless;
    if n > 0 {
      CalmExact(base, steps, ks, n - 1);
      assert HarmlessRun(steps, ks, n) <==> HarmlessRun(steps, ks, n - 1) && Harmless(ks[n - 1], steps[n - 1]);
      if HarmlessRun(steps, ks, n - 1) {
        RunConserves(base, steps, ks, n - 1);
        SparingStep(base + AllLost(steps, n - 1), ks[n - 1], steps[n - 1], ks[n]);
      }
    }
  }

  /**
   The accounting survives a run that ends outside of both windows exactly when
   no spawn took a slot that was still being zeroed, and none took a frame from a
   bitmap word between its load and its store.
   */
  lemma RunSurvives(base: set<nat>, steps: seq<Step>, ks: seq<Kernel>)
    requires IsRun(steps, ks) && Coherent(base, ks[0]) && Calm(ks[0])
    requires ks[|steps|].load.Idle? && ks[|steps|].sched.tail == -1
    ensures (forall m :: 0 <= m <= |steps| ==> Coherent(base + AllLost(steps, m), ks[m])) <==> SparingRun(steps, ks, |steps|)
  {
    assert Calm(ks[|steps|]);
    hide Coherent, Next, Calm, Sparing, Harmless;
    CalmExact(base, steps, ks, |steps|);
    RunExact(base, steps, ks, |steps|);
  }
}
