/**
 The round-robin scheduler as a state machine. The circular ready list is a
 sequence that starts after the current task and ends with it.
 */
module SchedSpec {
  import opened TaskState

  const TASKS: nat := 65
  const BOOT: nat := 0
  const TIME_SLICE: nat := 10

  /**
   Task 0 is the boot task, the others are the slots of the task pool; `live`
   marks slots in use. `reaped` is the dead task the boot task has unlinked and
   not yet begun to zero, or -1. `tail` is the task whose control block is zeroed
   up to the fields that mark it free and not yet to its end, where its link is,
   or -1. An empty queue stands for a list that is not a circle any more.
   */
  datatype Sched = Sched(queue: seq<nat>, state: seq<State>, live: seq<bool>, slice: nat, on: bool, reaped: int, tail: int)

  predicate Eligible(st: State) {
    st == Ready || st == Running
  }

  ghost predicate NoDup(q: seq<nat>) {
    forall k, l :: 0 <= k < l < |q| ==> q[k] != q[l]
  }

  function Current(s: Sched): (i: nat)
    requires |s.queue| > 0
  {
    s.queue[|s.queue| - 1]
  }

  /** One cycle without duplicates, through exactly the linked tasks. */
  ghost predicate QueueOk(s: Sched) {
    && |s.queue| > 0 && NoDup(s.queue) && |s.live| == TASKS
    && (forall k :: 0 <= k < |s.queue| ==> s.queue[k] < TASKS)
    && (forall i: nat :: i < TASKS ==> (i in s.queue <==> s.live[i] && i != s.reaped))
    && s.live[BOOT] && s.reaped != BOOT && BOOT in s.queue
  }

  /** At most the current task is running, and the boot task is never dead. */
  ghost predicate StatesOk(s: Sched)
    requires |s.queue| > 0
  {
    && |s.state| == TASKS && |s.live| == TASKS && Current(s) < TASKS
    && Eligible(s.state[BOOT]) && s.state[Current(s)] in {Running, Dead}
    && (forall i: nat :: i < TASKS ==> s.state[i] != Blocked)
    && (forall i: nat :: i < TASKS && s.state[i] == Running ==> i == Current(s))
    && (forall i: nat :: i < TASKS && !s.live[i] ==> s.state[i] == Ready)
    && (s.reaped == -1 || (0 < s.reaped < TASKS && s.live[s.reaped] && s.state[s.reaped] == Dead))
    && s.slice <= TIME_SLICE && (s.tail == -1 || (0 < s.tail < TASKS && s.reaped == -1))
  }

  ghost predicate Inv(s: Sched) {
    QueueOk(s) && StatesOk(s)
  }

  /** The state sched_init sets up. */
  function Initial(): (s: Sched)
    ensures Inv(s)
  {
    Sched([BOOT], seq(TASKS, i => if i == BOOT then Running else Ready), seq(TASKS, i => i == BOOT), TIME_SLICE, false, -1, -1)
  }

  // ----- Choosing and switching

  /** The first eligible position from `k` on. */
  function First(q: seq<nat>, state: seq<State>, k: nat): (f: nat)
    requires k <= |q| && forall j :: 0 <= j < |q| ==> q[j] < |state|
    ensures k <= f <= |q| && (f < |q| ==> Eligible(state[q[f]])) && forall j :: k <= j < f ==> !Eligible(state[q[j]])
    decreases |q| - k
  {
    if k == |q| || Eligible(state[q[k]]) then k else First(q, state, k + 1)
  }

  /** What pick_next_ready chooses: the first eligible task after the current one, or the current one. */
  function PickAt(s: Sched): (k: nat)
    requires |s.queue| > 0 && forall j :: 0 <= j < |s.queue| ==> s.queue[j] < |s.state|
    ensures k < |s.queue|
  {
    var f := First(s.queue, s.state, 0);
    if f < |s.queue| then f else |s.queue| - 1
  }

  /** The circle `q` read from position `p` on. */
  function Spin(q: seq<nat>, p: nat): (r: seq<nat>)
    requires p <= |q|
    ensures |r| == |q|
  {
    q[p..] + q[..p]
  }

  /** The circle after the current task has become the one at `k`. */
  function Rotate(q: seq<nat>, k: nat): (r: seq<nat>)
    requires k < |q|
    ensures |r| == |q| && r[|q| - 1] == q[k]
  {
    Spin(q, k + 1)
  }

  /** `q` without position `c`. */
  function Cut(q: seq<nat>, c: nat): (r: seq<nat>)
    requires c < |q|
    ensures |r| == |q| - 1
  {
    q[..c] + q[c + 1..]
  }

  function Demoted(state: seq<State>, i: nat): (r: seq<State>)
    requires i < |state|
    ensures |r| == |state|
  {
    if state[i] == Running then state[i := Ready] else state
  }

  /** switch_to the task at position `k`. */
  function SwitchTo(s: Sched, k: nat): (r: Sched)
    requires k < |s.queue| && s.queue[k] < |s.state| && Current(s) < |s.state|
  {
    if s.queue[k] == Current(s) then s
    else s.(queue := Rotate(s.queue, k), state := Demoted(s.state, Current(s))[s.queue[k] := Running], slice := TIME_SLICE)
  }

  /** The first position of task `i`. */
  function Position(q: seq<nat>, i: nat): (k: nat)
    requires i in q
    ensures k < |q| && q[k] == i
  {
    if q[0] == i then 0 else 1 + Position(q[1..], i)
  }

  /** sched_add_task: just before the boot task, which heads the list. */
  function Insert(q: seq<nat>, i: nat): (r: seq<nat>)
    requires BOOT in q
  {
    var p := Position(q, BOOT);
    q[..p] + [i] + q[p..]
  }

  /** sched_remove_task: a task that is not linked is left alone. */
  function Without(q: seq<nat>, i: nat): (r: seq<nat>) {
    if i in q then Cut(q, Position(q, i)) else q
  }

  // ----- Steps

  datatype Step = Tick | Yield | Enable(on: bool) | Create(slot: nat) | Exit | Unlink(slot: nat) | Clear | Finish

  predicate Shape(s: Sched) {
    && |s.queue| > 0 && BOOT in s.queue && |s.live| == TASKS && |s.state| == TASKS && -1 <= s.reaped < TASKS && -1 <= s.tail < TASKS
    && forall k :: 0 <= k < |s.queue| ==> s.queue[k] < TASKS
  }

  /** When a step can be taken: only the boot task reaps, one task after the other, and it never exits. */
  predicate Legal(s: Sched, step: Step) {
    && Shape(s)
    && match step
       case Tick => true
       case Yield => true
       case Enable(_) => true
       case Create(i) => 0 < i < TASKS && !s.live[i]
       case Exit => Current(s) != BOOT
       case Unlink(i) => Current(s) == BOOT && s.reaped == -1 && s.tail == -1 && 0 < i < TASKS && s.live[i] && s.state[i] == Dead
       case Clear => Current(s) == BOOT && s.reaped != -1
       case Finish => Current(s) == BOOT && s.tail != -1
  }

  /** schedule, on a timer tick. */
  function AfterTick(s: Sched): (r: Sched)
    requires Shape(s)
  {
    if !s.on then s
    else if s.slice > 1 then s.(slice := s.slice - 1)
    else var u := s.(slice := 0); SwitchTo(u, PickAt(u))
  }

  function Next(s: Sched, step: Step): (r: Sched)
    requires Legal(s, step)
  {
    match step
    case Tick => AfterTick(s)
    case Yield => SwitchTo(s, PickAt(s))
    case Enable(on) => s.(on := on)
    case Create(i) => s.(queue := Insert(s.queue, i), live := s.live[i := true], state := s.state[i := Ready])
    case Exit => s.(state := s.state[Current(s) := Dead])
    case Unlink(i) => s.(queue := Without(s.queue, i), reaped := i)
    case Clear => s.(live := s.live[s.reaped := false], state := s.state[s.reaped := Ready], reaped := -1, tail := s.reaped)
    case Finish => s.(queue := if s.tail in s.queue then [] else s.queue, tail := -1)
  }

  /** A run: steps that cannot be taken are not. */
  function Run(s: Sched, steps: seq<Step>): (r: Sched) {
    if steps == [] then s
    else
      var u := Run(s, steps[..|steps| - 1]);
      var step := steps[|steps| - 1];
      if Legal(u, step) then Next(u, step) else u
  }

  // ----- Sequence facts

  lemma {:induction false} PositionIs(q: seq<nat>, i: nat, k: nat)
    requires NoDup(q) && k < |q| && q[k] == i
    ensures Position(q, i) == k
  {
    if k > 0 {
      PositionIs(q[1..], i, k - 1);
    }
  }

  lemma RotateNoDup(q: seq<nat>, k: nat)
    requires NoDup(q) && k < |q|
    ensures NoDup(Rotate(q, k)) && forall i :: i in Rotate(q, k) <==> i in q
  {
    var r := Rotate(q, k);
    forall j | 0 <= j < |q| ensures r[j] == q[if j < |q| - k - 1 then j + k + 1 else j - (|q| - k - 1)] {
    }
    forall i | i in q ensures i in r {
      var j :| 0 <= j < |q| && q[j] == i;
      assert r[if j > k then j - k - 1 else j + (|q| - k - 1)] == i;
    }
  }

  lemma WithoutAt(q: seq<nat>, i: nat)
    requires i in q
    ensures |Without(q, i)| == |q| - 1
    ensures forall k :: 0 <= k < |q| - 1 ==> Without(q, i)[k] == q[if k < Position(q, i) then k else k + 1]
  {
  }

  lemma WithoutNoDup(q: seq<nat>, i: nat)
    requires NoDup(q)
    ensures NoDup(Without(q, i)) && (forall j :: j in Without(q, i) <==> j in q && j != i)
    ensures q != [] && q[|q| - 1] != i ==> Without(q, i) != [] && Without(q, i)[|Without(q, i)| - 1] == q[|q| - 1]
  {
    if i in q {
      WithoutAt(q, i);
      hide Without, Position;
      var p, r := Position(q, i), Without(q, i);
      forall j ensures j in r <==> j in q && j != i {
        if j in q && j != i {
          var k :| 0 <= k < |q| && q[k] == j;
          assert r[if k < p then k else k - 1] == j;
        }
      }
    }
  }

  lemma InsertNoDup(q: seq<nat>, i: nat)
    requires NoDup(q) && BOOT in q && i !in q
    ensures NoDup(Insert(q, i)) && (forall j :: j in Insert(q, i) <==> j in q || j == i)
    ensures |Insert(q, i)| == |q| + 1 && Insert(q, i)[|q|] == q[|q| - 1]
  {
    var p := Position(q, BOOT);
    var r := Insert(q, i);
    assert r[p] == i;
    forall j | j in q ensures j in r {
      var k :| 0 <= k < |q| && q[k] == j;
      assert r[if k < p then k else k + 1] == j;
    }
  }

  // ----- The invariant

  /** The chosen task is eligible, so a dead task is never picked. */
  lemma PickEligible(s: Sched)
    requires Inv(s)
    ensures Eligible(s.state[s.queue[PickAt(s)]])
    ensures forall j :: 0 <= j < PickAt(s) ==> !Eligible(s.state[s.queue[j]])
  {
    var b :| 0 <= b < |s.queue| && s.queue[b] == BOOT;
    assert First(s.queue, s.state, 0) <= b;
  }

  lemma SwitchQueue(s: Sched, k: nat)
    requires Inv(s) && k < |s.queue|
    ensures QueueOk(SwitchTo(s, k)) && Current(SwitchTo(s, k)) == s.queue[k]
  {
    if s.queue[k] != Current(s) {
      RotateNoDup(s.queue, k);
      hide Rotate, NoDup, StatesOk;
      var r := SwitchTo(s, k);
      forall j | 0 <= j < |r.queue| ensures r.queue[j] < TASKS {
        assert r.queue[j] in r.queue;
      }
    }
  }

  lemma SwitchStates(s: Sched, k: nat)
    requires |s.queue| > 0 && StatesOk(s) && k < |s.queue| && s.queue[k] < TASKS && s.live[s.queue[k]]
    requires Eligible(s.state[s.queue[k]])
    ensures StatesOk(SwitchTo(s, k))
  {
    hide Rotate;
  }

  lemma SwitchKeeps(s: Sched, k: nat)
    requires Inv(s) && k < |s.queue| && Eligible(s.state[s.queue[k]])
    ensures Inv(SwitchTo(s, k)) && Current(SwitchTo(s, k)) == s.queue[k]
  {
    hide SwitchTo, StatesOk, NoDup;
    SwitchQueue(s, k);
    assert s.queue[k] in s.queue;
    SwitchStates(s, k);
  }

  lemma TickKeeps(s: Sched)
    requires Inv(s)
    ensures Inv(AfterTick(s))
  {
    if s.on && s.slice <= 1 {
      var u := s.(slice := 0);
      PickEligible(u);
      SwitchKeeps(u, PickAt(u));
    }
  }

  lemma CreateKeeps(s: Sched, i: nat)
    requires Inv(s) && Legal(s, Create(i))
    ensures Inv(Next(s, Create(i)))
  {
    InsertNoDup(s.queue, i);
    var r := Next(s, Create(i));
    forall k | 0 <= k < |r.queue| ensures r.queue[k] < TASKS {
      assert r.queue[k] in r.queue;
    }
  }

  lemma UnlinkKeeps(s: Sched, i: nat)
    requires Inv(s) && Legal(s, Unlink(i))
    ensures Inv(Next(s, Unlink(i)))
  {
    WithoutNoDup(s.queue, i);
    var r := Next(s, Unlink(i));
    forall k | 0 <= k < |r.queue| ensures r.queue[k] < TASKS {
      assert r.queue[k] in r.queue;
    }
  }

  /** Zeroing the link of a control block is harmless unless a new task has been linked in it meanwhile. */
  predicate Quiet(s: Sched, step: Step) {
    step.Finish? && s.tail >= 0 ==> s.tail !in s.queue
  }

  /** A step keeps the invariant exactly when it is quiet. */
  lemma StepExact(s: Sched, step: Step)
    requires Inv(s) && Legal(s, step)
    ensures Inv(Next(s, step)) <==> Quiet(s, step)
  {
    match step {
      case Tick => TickKeeps(s);
      case Yield =>
        PickEligible(s);
        SwitchKeeps(s, PickAt(s));
      case Enable(_) =>
      case Create(i) => CreateKeeps(s, i);
      case Exit =>
      case Unlink(i) => UnlinkKeeps(s, i);
      case Clear =>
      case Finish =>
    }
  }

  lemma StepKeeps(s: Sched, step: Step)
    requires Inv(s) && Legal(s, step) && Quiet(s, step)
    ensures Inv(Next(s, step))
  {
    StepExact(s, step);
  }

  /** A task that exits and yields is not the one that runs next. */
  lemma ExitLeaves(s: Sched)
    requires Inv(s) && Current(s) != BOOT
    ensures Legal(s, Exit) && Legal(Next(s, Exit), Yield)
    ensures Current(Next(Next(s, Exit), Yield)) != Current(s)
  {
    StepKeeps(s, Exit);
    var d := Next(s, Exit);
    PickEligible(d);
    SwitchKeeps(d, PickAt(d));
  }

  lemma RunOneMore(s: Sched, steps: seq<Step>, n: nat)
    requires n < |steps|
    ensures Run(s, steps[..n + 1]) ==
              var u := Run(s, steps[..n]); if Legal(u, steps[n]) then Next(u, steps[n]) else u
  {
    assert steps[..n + 1][..n] == steps[..n];
  }

  /**
   An interleaving of ticks, yields, creations, exits and reaping steps keeps the
   invariant throughout exactly when no control block is zeroed to its end under
   a task that was linked in it meanwhile.
   */
  lemma {:induction false} RunExact(s: Sched, steps: seq<Step>, n: nat)
    requires Inv(s) && n <= |steps|
    ensures (forall m :: 0 <= m <= n ==> Inv(Run(s, steps[..m]))) <==>
              (forall m :: 0 <= m < n ==> Legal(Run(s, steps[..m]), steps[m]) ==> Quiet(Run(s, steps[..m]), steps[m]))
  {
    hide Inv, Legal, Next, Quiet, Run;
    if n == 0 {
      RunNone(s, steps);
    } else {
      RunExact(s, steps, n - 1);
      RunOneMore(s, steps, n - 1);
      var u := Run(s, steps[..n - 1]);
      if Inv(u) && Legal(u, steps[n - 1]) {
        StepExact(u, steps[n - 1]);
      }
    }
  }

  lemma RunNone(s: Sched, steps: seq<Step>)
    ensures Run(s, steps[..0]) == s
  {
    assert steps[..0] == [];
  }

  /** No new task sits in a control block that is still being zeroed. */
  predicate TailFree(s: Sched) {
    s.tail >= 0 ==> s.tail !in s.queue
  }

  /** Only a creation in that very slot changes this. */
  predicate Spares(s: Sched, step: Step) {
    step.Create? ==> step.slot != s.tail
  }

  lemma StaysFree(s: Sched, step: Step)
    requires Inv(s) && TailFree(s) && Legal(s, step) && Spares(s, step)
    ensures Quiet(s, step) && TailFree(Next(s, step))
  {
    StepExact(s, step);
    if Next(s, step).tail >= 0 {
      TailDead(s, step);
    }
  }

  lemma TailDead(s: Sched, step: Step)
    requires Inv(s) && TailFree(s) && Legal(s, step) && Spares(s, step) && Next(s, step).tail >= 0
    ensures var r := Next(s, step);
            |r.live| == TASKS && r.tail < TASKS && !r.live[r.tail]
  {
  }

  /** A task created in a control block that is still being zeroed stays linked in it until the zeroing ends. */
  lemma LinkedInTail(s: Sched, step: Step)
    requires Inv(s) && Legal(s, step) && s.tail in s.queue && !step.Finish?
    ensures Inv(Next(s, step)) && Next(s, step).tail == s.tail && s.tail in Next(s, step).queue
  {
    StepExact(s, step);
    var r := Next(s, step);
    hide StatesOk, SwitchTo, Insert, NoDup;
    assert r.live[s.tail] && r.reaped != s.tail by {
      StillLive(s, step);
    }
  }

  lemma StillLive(s: Sched, step: Step)
    requires Inv(s) && Legal(s, step) && s.tail in s.queue && !step.Finish?
    ensures var r := Next(s, step);
            |r.live| == TASKS && r.tail == s.tail && 0 < s.tail < TASKS && r.live[s.tail] && r.reaped == -1
  {
  }

  lemma TakesTail(s: Sched, step: Step)
    requires Inv(s) && Legal(s, step) && !Spares(s, step)
    ensures Inv(Next(s, step)) && !TailFree(Next(s, step))
  {
    StepKeeps(s, step);
    InsertNoDup(s.queue, step.slot);
  }

  /**
   So a run keeps the invariant, and ends without a new task in a control block
   that is still being zeroed, exactly when no creation took such a slot.
   */
  lemma {:induction false} SparingExact(s: Sched, steps: seq<Step>, n: nat)
    requires Inv(s) && TailFree(s) && n <= |steps|
    ensures (forall m :: 0 <= m <= n ==> Inv(Run(s, steps[..m]))) && TailFree(Run(s, steps[..n])) <==>
              (forall m :: 0 <= m < n ==> Legal(Run(s, steps[..m]), steps[m]) ==> Spares(Run(s, steps[..m]), steps[m]))
  {
    hide Inv, Legal, Next, Quiet, Run, TailFree, Spares;
    if n == 0 {
      RunNone(s, steps);
    } else {
      SparingExact(s, steps, n - 1);
      RunOneMore(s, steps, n - 1);
      var u := Run(s, steps[..n - 1]);
      if Inv(u) && Legal(u, steps[n - 1]) {
        SparingStep(u, steps[n - 1]);
      }
    }
  }

  lemma SparingStep(s: Sched, step: Step)
    requires Inv(s) && Legal(s, step)
    ensures Inv(Next(s, step)) && TailFree(Next(s, step)) <==> TailFree(s) && Spares(s, step)
  {
    hide Inv, Next;
    if !Spares(s, step) {
      TakesTail(s, step);
    } else if TailFree(s) {
      StaysFree(s, step);
      StepKeeps(s, step);
    } else if step.Finish? {
      StepExact(s, step);
    } else {
      LinkedInTail(s, step);
    }
  }

  /** Then the end of the zeroing cuts the list: the circle is gone. */
  lemma {:induction false} CreatedInTail(s: Sched, steps: seq<Step>)
    requires Inv(s) && s.tail in s.queue && forall n :: 0 <= n < |steps| ==> !steps[n].Finish?
    ensures var u := Run(s, steps);
            && Inv(u) && u.tail == s.tail && s.tail in u.queue && (Legal(u, Finish) ==> Next(u, Finish).queue == [])
  {
    hide Inv;
    if steps != [] {
      var front := steps[..|steps| - 1];
      CreatedInTail(s, front);
      if Legal(Run(s, front), steps[|steps| - 1]) {
        LinkedInTail(Run(s, front), steps[|steps| - 1]);
      }
    }
  }
}
