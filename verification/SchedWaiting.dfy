/**
 Bounded waiting: how long a ready task can be passed over.
 */
module SchedWaiting {
  import opened TaskState
  import opened SchedSpec

  /** Links from the current task to task `i`. */
  function Distance(s: Sched, i: nat): (d: nat)
    requires i in s.queue
  {
    Position(s.queue, i) + 1
  }

  /** Ticks that can pass before task `i` runs: a full slice for each task ahead of it, and what is left of this one. */
  function Wait(s: Sched, i: nat): (w: nat)
    requires i in s.queue
    ensures w >= 1
  {
    TIME_SLICE * (Distance(s, i) - 1) + if s.slice > 1 then s.slice else 1
  }

  predicate Waiting(s: Sched, i: nat) {
    i in s.queue && i < |s.state| && s.state[i] == Ready
  }

  lemma RotatePosition(q: seq<nat>, k: nat, p: nat)
    requires NoDup(q) && k < p < |q|
    ensures q[p] in Rotate(q, k) && Position(Rotate(q, k), q[p]) == p - k - 1
  {
    RotateNoDup(q, k);
    assert Rotate(q, k)[p - k - 1] == q[p];
    PositionIs(Rotate(q, k), q[p], p - k - 1);
  }

  /** A switch never passes over a ready task. */
  lemma SwitchWaits(s: Sched, i: nat)
    requires Inv(s) && Waiting(s, i)
    ensures var r := SwitchTo(s, PickAt(s));
            Current(r) == i || (Waiting(r, i) && Wait(r, i) <= TIME_SLICE * (Distance(s, i) - 1))
  {
    var k, p := PickAt(s), Position(s.queue, i);
    PickEligible(s);
    assert k <= p;
    if k < p {
      RotatePosition(s.queue, k, p);
      QueuePlaces(s, k);
      hide Rotate, Position, NoDup, First, PickAt, Inv;
      assert s.queue[k] != i;
    }
  }

  lemma QueuePlaces(s: Sched, k: nat)
    requires Inv(s) && k < |s.queue| - 1
    ensures s.queue[k] != s.queue[|s.queue| - 1] && |s.state| == TASKS && forall j :: 0 <= j < |s.queue| ==> s.queue[j] < TASKS
  {
  }

  lemma UnlinkWaits(s: Sched, j: nat, i: nat)
    requires Inv(s) && Legal(s, Unlink(j)) && Waiting(s, i)
    ensures var r := Next(s, Unlink(j)); Waiting(r, i) && Wait(r, i) <= Wait(s, i)
  {
    WithoutNoDup(s.queue, j);
    var r := Next(s, Unlink(j));
    if j in s.queue {
      WithoutAt(s.queue, j);
      var p, pj := Position(s.queue, i), Position(s.queue, j);
      assert r.queue[if p < pj then p else p - 1] == i;
      PositionIs(r.queue, i, if p < pj then p else p - 1);
    }
  }

  /** Steps that leave preemption on and add no task. */
  predicate Steady(step: Step) {
    !step.Create? && (step.Enable? ==> step.on)
  }

  lemma TickWaits(s: Sched, i: nat)
    requires Inv(s) && s.on && Waiting(s, i)
    ensures var r := AfterTick(s); |r.queue| > 0 && (Current(r) == i || (Waiting(r, i) && Wait(r, i) + 1 <= Wait(s, i)))
  {
    Expired(s);
    hide Inv, AfterTick, Wait;
    TickKeeps(s);
    NotEmpty(AfterTick(s));
    if s.slice > 1 {
      CountDown(s, i);
    } else {
      SliceEnds(s, i);
    }
  }

  /** Within a slice a tick only counts down. */
  lemma CountDown(s: Sched, i: nat)
    requires Shape(s) && s.on && s.slice > 1 && Waiting(s, i)
    ensures var r := AfterTick(s); Waiting(r, i) && Wait(r, i) + 1 <= Wait(s, i)
  {
    hide Position;
  }

  /** At the end of a slice a tick switches. */
  lemma SliceEnds(s: Sched, i: nat)
    requires Inv(s) && Shape(s) && s.on && s.slice <= 1 && Waiting(s, i)
    ensures var r := AfterTick(s); |r.queue| > 0 && (Current(r) == i || (Waiting(r, i) && Wait(r, i) + 1 <= Wait(s, i)))
  {
    Expired(s);
    hide Inv, SwitchTo, PickAt, Wait, Shape;
    SwitchCloser(s.(slice := 0), i);
    SliceGone(s, i);
  }

  lemma SliceGone(s: Sched, i: nat)
    requires i in s.queue
    ensures Wait(s.(slice := 0), i) <= Wait(s, i)
  {
    hide Position;
  }

  lemma Expired(s: Sched)
    requires Inv(s)
    ensures Inv(s.(slice := 0)) && Shape(s)
  {
  }

  /** Marking the current task dead and zeroing a reaped slot move no ready task. */
  lemma MarkWaits(s: Sched, step: Step, i: nat)
    requires Inv(s) && Legal(s, step) && (step.Exit? || step.Clear? || step.Enable? || step.Finish?) && Quiet(s, step) && Waiting(s, i)
    ensures var r := Next(s, step); Waiting(r, i) && r.queue == s.queue && r.slice == s.slice
  {
  }

  lemma SameWait(s: Sched, r: Sched, i: nat)
    requires Waiting(s, i) && r.queue == s.queue && r.slice == s.slice
    ensures Wait(r, i) == Wait(s, i)
  {
  }

  lemma SwitchCloser(s: Sched, i: nat)
    requires Inv(s) && Waiting(s, i)
    ensures var r := SwitchTo(s, PickAt(s));
            |r.queue| > 0 && (Current(r) == i || (Waiting(r, i) && Wait(r, i) + 1 <= Wait(s, i)))
  {
    SwitchWaits(s, i);
  }

  /** No step makes a ready task wait longer, and every tick brings it closer. */
  lemma StepWaits(s: Sched, step: Step, i: nat)
    requires Inv(s) && TailFree(s) && Legal(s, step) && Steady(step) && s.on && Waiting(s, i)
    ensures var r := Next(s, step);
            |r.queue| > 0 && (Current(r) == i || (Waiting(r, i) && Wait(r, i) + (if step.Tick? then 1 else 0) <= Wait(s, i)))
  {
    StaysFree(s, step);
    StepKeeps(s, step);
    hide Inv, Wait, Waiting, AfterTick, SwitchTo, PickAt, Insert, Without, Position;
    NotEmpty(Next(s, step));
    match step {
      case Tick => TickWaits(s, i);
      case Yield => SwitchCloser(s, i);
      case Unlink(j) => UnlinkWaits(s, j, i);
      case _ =>
        MarkWaits(s, step, i);
        SameWait(s, Next(s, step), i);
    }
  }

  lemma StepStaysOn(s: Sched, step: Step)
    requires Legal(s, step) && Steady(step) && s.on
    ensures Next(s, step).on
  {
  }

  function Ticks(steps: seq<Step>): (n: nat) {
    if steps == [] then 0 else Ticks(steps[..|steps| - 1]) + if steps[|steps| - 1].Tick? then 1 else 0
  }

  /** Whether task `i` is current after some prefix of the run. */
  ghost predicate GetsToRun(s: Sched, steps: seq<Step>, i: nat) {
    exists n :: 0 <= n <= |steps| && |Run(s, steps[..n]).queue| > 0 && Current(Run(s, steps[..n])) == i
  }

  lemma {:induction false} RunWaits(s: Sched, steps: seq<Step>, i: nat)
    requires Inv(s) && TailFree(s) && s.on && Waiting(s, i) && forall k :: 0 <= k < |steps| ==> Steady(steps[k])
    ensures var r := Run(s, steps);
            && Inv(r) && TailFree(r) && r.on && (GetsToRun(s, steps, i) || (Waiting(r, i) && Wait(r, i) + Ticks(steps) <= Wait(s, i)))
  {
    hide Inv, Next, Wait, Waiting, Legal, TailFree, Quiet;
    if steps != [] {
      var front, step := steps[..|steps| - 1], steps[|steps| - 1];
      RunWaits(s, front, i);
      var u := Run(s, front);
      if Legal(u, step) {
        StepStaysOn(u, step);
        StaysFree(u, step);
        StepKeeps(u, step);
      }
      if GetsToRun(s, front, i) {
        var n :| 0 <= n <= |front| && |Run(s, front[..n]).queue| > 0 && Current(Run(s, front[..n])) == i;
        assert front[..n] == steps[..n];
      } else {
        StepTaken(u, step);
        if Legal(u, step) {
          StepWaits(u, step, i);
          assert steps[..|steps|] == steps;
          NotEmpty(Run(s, steps));
        }
      }
    }
  }

  lemma StepTaken(s: Sched, step: Step)
    requires Inv(s)
    ensures step.Tick? ==> Legal(s, step)
  {
  }

  lemma NotEmpty(s: Sched)
    requires Inv(s)
    ensures |s.queue| > 0
  {
  }

  /** With preemption on and no task added, a ready task `k` links away runs within 10 * k ticks. */
  lemma BoundedWaiting(s: Sched, steps: seq<Step>, i: nat)
    requires Inv(s) && TailFree(s) && s.on && Waiting(s, i) && forall k :: 0 <= k < |steps| ==> Steady(steps[k])
    requires Ticks(steps) >= 10 * Distance(s, i)
    ensures GetsToRun(s, steps, i)
  {
    RunWaits(s, steps, i);
  }
}
