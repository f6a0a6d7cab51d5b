/**
 The scheduler over its circular linked list.
 */
module Scheduler {
  import opened TaskState
  import opened SchedSpec

  const NULL: int := -1

  /** Following the links goes round `q` once and comes back; tasks outside are not linked. */
  ghost predicate Links(next: seq<int>, q: seq<nat>) {
    && |next| == TASKS && |q| > 0 && NoDup(q) && (forall k :: 0 <= k < |q| ==> q[k] < TASKS)
    && (forall k, l :: 0 <= k && l == k + 1 && l < |q| ==> next[q[k]] == q[l])
    && next[q[|q| - 1]] == q[0]
    && (forall i: nat :: i < TASKS && i !in q ==> next[i] == NULL)
  }

  /** Following the links goes round no circle. */
  ghost predicate NoCircle(next: seq<int>) {
    forall q :: !Links(next, q)
  }

  lemma LinkAt(next: seq<int>, q: seq<nat>, k: nat)
    requires Links(next, q) && k < |q|
    ensures q[k] < TASKS && next[q[k]] == (if k + 1 < |q| then q[k + 1] else q[0]) && (k + 1 < |q| ==> q[k + 1] != q[0])
  {
  }

  lemma RotateAt(q: seq<nat>, k: nat, j: nat)
    requires k < |q| && j < |q|
    ensures Rotate(q, k)[j] == q[if j < |q| - k - 1 then j + k + 1 else j - (|q| - k - 1)]
  {
  }

  /** The same circle read from another task. */
  lemma LinksRotate(next: seq<int>, q: seq<nat>, k: nat)
    requires Links(next, q) && k < |q|
    ensures Links(next, Rotate(q, k))
  {
    hide Rotate, NoDup;
    RotateNoDup(q, k);
    var r, n := Rotate(q, k), |q|;
    forall j: nat | j < n ensures r[j] < TASKS && next[r[j]] == r[if j + 1 < n then j + 1 else 0] {
      RotateAt(q, k, j);
      RotateAt(q, k, if j + 1 < n then j + 1 else 0);
      LinkAt(next, q, if j < n - k - 1 then j + k + 1 else j - (n - k - 1));
    }
  }

  /** The circle read from the boot task on. */
  ghost function FromBoot(q: seq<nat>): (r: seq<nat>)
    requires BOOT in q
    ensures |r| == |q|
  {
    Spin(q, Position(q, BOOT))
  }

  lemma LinksFromBoot(next: seq<int>, q: seq<nat>)
    requires Links(next, q) && BOOT in q
    ensures Links(next, FromBoot(q)) && FromBoot(q)[0] == BOOT
  {
    var p := Position(q, BOOT);
    if p == 0 {
      assert FromBoot(q) == q;
    } else {
      LinksRotate(next, q, p - 1);
      assert FromBoot(q) == Rotate(q, p - 1);
    }
  }

  /** insert_after the tail. */
  lemma LinksAppend(next: seq<int>, r: seq<nat>, i: nat)
    requires Links(next, r) && i < TASKS && i !in r
    ensures Links(next[i := r[0]][r[|r| - 1] := i], r + [i])
  {
    var next', r' := next[i := r[0]][r[|r| - 1] := i], r + [i];
    forall k, l | 0 <= k && l == k + 1 && l < |r'| ensures next'[r'[k]] == r'[l] {
      if l < |r| {
        assert next[r[k]] == r[l];
      }
    }
  }

  lemma LinksInsert(next: seq<int>, q: seq<nat>, i: nat)
    requires BOOT in q && i !in q && i < TASKS && Links(next, FromBoot(q) + [i])
    ensures Links(next, Insert(q, i))
  {
    var p := Position(q, BOOT);
    var r := FromBoot(q) + [i];
    LinksRotate(next, r, |q| - p - 1);
    InsertIsRotation(q, p, i);
  }

  lemma InsertIsRotation(q: seq<nat>, p: nat, i: nat)
    requires p < |q|
    ensures q[..p] + [i] + q[p..] == Rotate(Spin(q, p) + [i], |q| - p - 1)
  {
    var r := Spin(q, p) + [i];
    assert r[..|q| - p] == q[p..] && r[|q| - p..] == q[..p] + [i];
  }

  /** The links after the predecessor of the task at `j` has been pointed past it. */
  function Bypass(next: seq<int>, r: seq<nat>, j: nat): (n: seq<int>)
    requires 0 < j < |r| && forall k :: 0 <= k < |r| ==> r[k] < |next|
    ensures |n| == |next| && forall i: nat :: i < |next| ==>
              n[i] == if i == r[j] then NULL else if i == r[j - 1] then next[r[j]] else next[i]
  {
    next[r[j - 1] := next[r[j]]][r[j] := NULL]
  }

  lemma BypassAt(next: seq<int>, r: seq<nat>, j: nat, k: nat)
    requires Links(next, r) && 0 < j < |r| && k < |r| && k != j
    ensures Bypass(next, r, j)[r[k]] == next[r[if k == j - 1 then j else k]]
  {
  }

  /** Unlinking the task at position `j`, whose predecessor is at `j - 1`. */
  lemma LinksRemove(next: seq<int>, r: seq<nat>, j: nat)
    requires Links(next, r) && 0 < j < |r|
    ensures Links(Bypass(next, r, j), Without(r, r[j]))
  {
    PositionIs(r, r[j], j);
    WithoutAt(r, r[j]);
    WithoutNoDup(r, r[j]);
    hide Without, Position, Bypass, NoDup;
    var next', r' := Bypass(next, r, j), Without(r, r[j]);
    forall k, l | 0 <= k && l == k + 1 && l < |r'| ensures next'[r'[k]] == r'[l] {
      BypassAt(next, r, j, if k < j then k else k + 1);
    }
    assert r'[0] == r[0];
    BypassAt(next, r, j, if j == |r| - 1 then j - 1 else |r| - 1);
  }

  lemma CutBefore(q: seq<nat>, c: nat, p: nat)
    requires c < p < |q|
    ensures Spin(Cut(q, c), p - 1) == Cut(Spin(q, p), |q| - p + c)
    ensures Cut(q, c)[p - 1] == q[p] && Spin(q, p)[|q| - p + c] == q[c]
  {
    var w, r := Cut(q, c), Spin(q, p);
    assert w[p - 1..] == q[p..] && w[..p - 1] == q[..c] + q[c + 1..p];
    assert r[..|q| - p + c] == q[p..] + q[..c] && r[|q| - p + c + 1..] == q[c + 1..p];
    assert q[p..] + (q[..c] + q[c + 1..p]) == q[p..] + q[..c] + q[c + 1..p];
  }

  lemma CutAfter(q: seq<nat>, c: nat, p: nat)
    requires p < c < |q|
    ensures Spin(Cut(q, c), p) == Cut(Spin(q, p), c - p)
    ensures Cut(q, c)[p] == q[p] && Spin(q, p)[c - p] == q[c]
  {
    var w, r := Cut(q, c), Spin(q, p);
    assert w[p..] == q[p..c] + q[c + 1..] && w[..p] == q[..p];
    assert r[..c - p] == q[p..c] && r[c - p + 1..] == q[c + 1..] + q[..p];
    assert q[p..c] + q[c + 1..] + q[..p] == q[p..c] + (q[c + 1..] + q[..p]);
  }

  lemma FromBootOf(q: seq<nat>, p: nat)
    requires NoDup(q) && p < |q| && q[p] == BOOT
    ensures BOOT in q && FromBoot(q) == Spin(q, p)
  {
    PositionIs(q, BOOT, p);
  }

  lemma WithoutOf(q: seq<nat>, i: nat, c: nat)
    requires NoDup(q) && c < |q| && q[c] == i
    ensures Without(q, i) == Cut(q, c)
  {
    PositionIs(q, i, c);
  }

  /** Removing a task from the circle does not depend on where the circle is read from. */
  lemma WithoutFromBoot(q: seq<nat>, i: nat)
    requires NoDup(q) && BOOT in q && i in q && i != BOOT
    ensures BOOT in Without(q, i) && FromBoot(Without(q, i)) == Without(FromBoot(q), i)
  {
    var p, c := Position(q, BOOT), Position(q, i);
    if c < p {
      RemovedBefore(q, c, p);
    } else {
      RemovedAfter(q, c, p);
    }
  }

  lemma RemovedBefore(q: seq<nat>, c: nat, p: nat)
    requires NoDup(q) && c < p < |q| && q[p] == BOOT && q[c] != BOOT
    ensures BOOT in q && BOOT in Without(q, q[c]) && FromBoot(Without(q, q[c])) == Without(FromBoot(q), q[c])
  {
    hide FromBoot, Without, NoDup, Spin, Cut;
    WithoutNoDup(q, q[c]);
    FromBootNoDup(q);
    FromBootOf(q, p);
    WithoutOf(q, q[c], c);
    CutBefore(q, c, p);
    FromBootOf(Without(q, q[c]), p - 1);
    WithoutOf(FromBoot(q), q[c], |q| - p + c);
  }

  lemma RemovedAfter(q: seq<nat>, c: nat, p: nat)
    requires NoDup(q) && p < c < |q| && q[p] == BOOT && q[c] != BOOT
    ensures BOOT in q && BOOT in Without(q, q[c]) && FromBoot(Without(q, q[c])) == Without(FromBoot(q), q[c])
  {
    hide FromBoot, Without, NoDup, Spin, Cut;
    WithoutNoDup(q, q[c]);
    FromBootNoDup(q);
    FromBootOf(q, p);
    WithoutOf(q, q[c], c);
    CutAfter(q, c, p);
    FromBootOf(Without(q, q[c]), p);
    WithoutOf(FromBoot(q), q[c], c - p);
  }

  lemma FromBootNoDup(q: seq<nat>)
    requires NoDup(q) && BOOT in q
    ensures NoDup(FromBoot(q)) && FromBoot(q)[0] == BOOT && forall i :: i in FromBoot(q) <==> i in q
  {
    var p := Position(q, BOOT);
    if p == 0 {
      assert FromBoot(q) == q;
    } else {
      RotateNoDup(q, p - 1);
      assert FromBoot(q) == Rotate(q, p - 1);
    }
  }

  lemma SpinBack(q: seq<nat>, p: nat)
    requires p < |q|
    ensures q == Rotate(Spin(q, p), |q| - p - 1)
  {
    var r := Spin(q, p);
    assert r[..|q| - p] == q[p..] && r[|q| - p..] == q[..p];
  }

  lemma LinksBack(next: seq<int>, q: seq<nat>)
    requires BOOT in q && Links(next, FromBoot(q))
    ensures Links(next, q)
  {
    var p := Position(q, BOOT);
    LinksRotate(next, FromBoot(q), |q| - p - 1);
    SpinBack(q, p);
  }

  class Queue {
    /** Links and states of the 65 control blocks, the running task, the head of the list and the time slice. */
    var next: seq<int>
    var state: seq<State>
    var current: nat
    var readyHead: int
    var slice: nat
    var on: bool
    /** The circle, the slots in use, the task being reaped and the one being zeroed. */
    ghost var queue: seq<nat>
    ghost var live: seq<bool>
    ghost var reaped: int
    ghost var tail: int

    ghost function Model(): (s: Sched)
      reads this
    {
      Sched(queue, state, live, slice, on, reaped, tail)
    }

    ghost predicate Valid()
      reads this
    {
      Inv(Model()) && Links(next, queue) && current == Current(Model()) && readyHead == BOOT
    }

    /** sched_init: a circle of one. */
    constructor ()
      ensures Valid() && Model() == Initial()
    {
      next, state := seq(TASKS, i => if i == BOOT then BOOT else NULL), Initial().state;
      current, readyHead, slice, on := BOOT, BOOT, TIME_SLICE, false;
      queue, live, reaped, tail := [BOOT], Initial().live, -1, -1;
    }

    method Enable(on: bool)
      requires Valid()
      modifies this`on
      ensures Valid() && Legal(old(Model()), SchedSpec.Enable(on)) && Model() == Next(old(Model()), SchedSpec.Enable(on))
    {
      hide Inv, Links, Shape;
      ModelFacts(Model());
      StepKeeps(Model(), SchedSpec.Enable(on));
      this.on := on;
    }

    /** Walks the list from the task after the current one; always ends, with an eligible task. */
    method PickNextReady() returns (t: nat)
      requires Valid()
      ensures t == queue[PickAt(Model())] && t < TASKS && Eligible(state[t])
    {
      PickEligible(Model());
      LinkAt(next, queue, |queue| - 1);
      t := next[current];
      var start := t;
      ghost var k := 0;
      while true
        invariant 0 <= k < |queue| && t == queue[k] && t < TASKS && First(queue, state, 0) == First(queue, state, k)
        decreases |queue| - k
      {
        if state[t] == Ready || state[t] == Running {
          return;
        }
        LinkAt(next, queue, k);
        t := next[t];
        if t == start {
          break;
        }
        k := k + 1;
      }
      return current;
    }

    /** switch_to: the list stays, the current task moves. */
    method SwitchTo(t: nat, ghost k: nat)
      requires Valid() && k < |queue| && t == queue[k] && Eligible(state[t])
      modifies this
      ensures Valid() && Model() == SchedSpec.SwitchTo(old(Model()), k)
    {
      hide Inv, NoDup, Links, Rotate;
      ModelFacts(Model());
      if t == current {
        return;
      }
      SwitchKeeps(Model(), k);
      LinksRotate(next, queue, k);
      var prev := current;
      if state[prev] == Running {
        state := state[prev := Ready];
      }
      state := state[t := Running];
      current := t;
      slice := TIME_SLICE;
      queue := Rotate(queue, k);
    }

    /** Switches to the next eligible task. */
    method Reschedule()
      requires Valid()
      modifies this
      ensures Valid() && Shape(old(Model())) && Model() == SchedSpec.SwitchTo(old(Model()), PickAt(old(Model())))
    {
      ModelFacts(Model());
      hide Inv, Links;
      var t := PickNextReady();
      SwitchTo(t, PickAt(Model()));
    }

    method Yield()
      requires Valid()
      modifies this
      ensures Valid() && Legal(old(Model()), SchedSpec.Yield) && Model() == Next(old(Model()), SchedSpec.Yield)
    {
      Reschedule();
    }

    /** schedule, from the timer interrupt. */
    method Schedule()
      requires Valid()
      modifies this
      ensures Valid() && Legal(old(Model()), Tick) && Model() == Next(old(Model()), Tick)
    {
      hide Inv, Links, SchedSpec.SwitchTo, PickAt, Shape;
      ModelFacts(Model());
      if !on {
        return;
      }
      if slice > 0 {
        SliceKeeps(Model());
        slice := slice - 1;
        if slice > 0 {
          return;
        }
      }
      Reschedule();
    }

    /** The last task of the circle, found by walking from the head. */
    method FindTail() returns (tail: nat)
      requires Valid()
      ensures BOOT in queue && tail == FromBoot(queue)[|queue| - 1] && tail < TASKS && next[tail] == BOOT
    {
      ghost var r := FromBoot(queue);
      LinksFromBoot(next, queue);
      hide Inv;
      tail := readyHead;
      ghost var j := 0;
      LinkAt(next, r, 0);
      while next[tail] != readyHead
        invariant 0 <= j < |r| && tail == r[j] && tail < TASKS
        decreases |r| - j
      {
        LinkAt(next, r, j);
        tail, j := next[tail], j + 1;
        LinkAt(next, r, j);
      }
      LinkAt(next, r, j);
    }

    /** Links a new task after the tail, just before the boot task. */
    method AddTask(i: nat)
      requires Valid() && Legal(Model(), Create(i))
      modifies this
      ensures Valid() && Model() == Next(old(Model()), Create(i))
    {
      hide Inv, NoDup, Links, FromBoot, Insert, Shape;
      ModelFacts(Model());
      NotLinked(Model(), i);
      CreateKeeps(Model(), i);
      LinksFromBoot(next, queue);
      LinksAddedBack(next, queue, i);
      var tail := FindTail();
      state := state[i := Ready];
      next := next[i := next[tail]];
      next := next[tail := i];
      queue, live := Insert(queue, i), live[i := true];
    }

    /** task_exit, before it yields. */
    method Exit()
      requires Valid() && Legal(Model(), SchedSpec.Exit)
      modifies this
      ensures Valid() && Model() == Next(old(Model()), SchedSpec.Exit)
    {
      hide Inv, Links, Shape;
      StepKeeps(Model(), SchedSpec.Exit);
      ModelFacts(Model());
      state := state[current := Dead];
    }

    /** The task before `i` in the list, if `i` is linked, found by one walk round the circle from the head. */
    method FindBefore(i: nat) returns (found: bool, prev: nat, ghost j: nat)
      requires Valid() && i < TASKS && i != BOOT
      ensures BOOT in queue && prev < TASKS && (found <==> i in queue)
      ensures found ==> 0 < j < |queue| && prev == FromBoot(queue)[j - 1] && FromBoot(queue)[j] == i && next[prev] == i
    {
      hide Inv, FromBoot, NoDup, Links, Position;
      ModelFacts(Model());
      ghost var r := FromBoot(queue);
      LinksFromBoot(next, queue);
      FromBootNoDup(queue);
      prev, j := readyHead, 1;
      var start := prev;
      LinkAt(next, r, 0);
      while true
        invariant 0 < j <= |r| && prev == r[j - 1] && prev < TASKS && forall k :: 0 <= k < j ==> r[k] != i
        decreases |r| - j
      {
        LinkAt(next, r, j - 1);
        if next[prev] == i {
          assert r[j] in r;
          return true, prev, j;
        }
        prev := next[prev];
        if prev == start {
          break;
        }
        j := j + 1;
        LinkAt(next, r, j - 1);
      }
      found := false;
    }

    /** sched_remove_task, called by the boot task on a dead one; the boot task and a task that is not linked stay as they are. */
    method RemoveTask(i: nat)
      requires Valid() && i < TASKS && (i != BOOT && i in queue ==> Legal(Model(), Unlink(i)))
      modifies this
      ensures Valid() && (i == BOOT || i !in old(queue) ==> Model() == old(Model()) && next == old(next))
      ensures i != BOOT && i in old(queue) ==> Model() == Next(old(Model()), Unlink(i))
      ensures current == old(current)
    {
      hide Inv, NoDup, Links, FromBoot, Without, Shape, Legal;
      if i == BOOT {
        return;
      }
      ModelFacts(Model());
      var found, prev;
      ghost var j;
      found, prev, j := FindBefore(i);
      if !found {
        return;
      }
      StillLinked(Model(), i);
      UnlinkKeeps(Model(), i);
      LinksFromBoot(next, queue);
      LinksCutBack(next, queue, i, j);
      next := next[prev := next[i]];
      if readyHead == i {
        assert false;  // the head is the boot task
      }
      next := next[i := NULL];
      queue, reaped := Without(queue, i), i;
    }

    /** The control block is zeroed up to the fields that mark it free; its state lies among them. */
    method ClearHead(i: nat)
      requires Valid() && Legal(Model(), Clear) && i == reaped
      modifies this
      ensures Valid() && Model() == Next(old(Model()), Clear) && current == old(current)
    {
      hide Inv, Links, Shape;
      StepKeeps(Model(), Clear);
      ModelFacts(Model());
      state := state[i := Ready];
      live, reaped, tail := live[i := false], -1, i;
    }

    /** And to its end, where the link is. With a task linked in it meanwhile, no circle is left. */
    method ClearTail(i: nat)
      requires Valid() && Legal(Model(), Finish) && i == tail
      modifies this
      ensures Model() == Next(old(Model()), Finish) && current == old(current)
      ensures Valid() <==> Quiet(old(Model()), Finish)
      ensures i in old(queue) ==> NoCircle(next)
    {
      hide Inv, Shape, Links, NoDup;
      StepExact(Model(), Finish);
      ModelFacts(Model());
      TailIsTask(Model());
      LinkCleared(next, queue, i);
      next := next[i := NULL];
      queue, tail := if i in queue then [] else queue, -1;
    }
  }

  lemma TailIsTask(s: Sched)
    requires Inv(s) && s.tail != -1
    ensures 0 < s.tail < TASKS
  {
  }

  /** Zeroing the link of a task that is not linked changes nothing; of one that is, it leaves no circle at all. */
  lemma LinkCleared(next: seq<int>, q: seq<nat>, i: nat)
    requires Links(next, q) && BOOT in q && 0 < i < TASKS
    ensures |next| == TASKS && (i !in q ==> next[i := NULL] == next)
    ensures i in q ==> NoCircle(next[i := NULL])
  {
    if i in q {
      var next' := next[i := NULL];
      var k :| 0 <= k < |q| && q[k] == i;
      var p := if k > 0 then q[k - 1] else q[|q| - 1];
      LinkAt(next, q, if k > 0 then k - 1 else |q| - 1);
      assert p != i && next'[p] == i by {
        var b :| 0 <= b < |q| && q[b] == BOOT;
      }
      forall r ensures !Links(next', r) {
        if Links(next', r) {
          Follow(next', r, p);
          Follow(next', r, i);
        }
      }
    }
  }

  /** The successor of a linked task is linked; a task with a successor is linked. */
  lemma Follow(next: seq<int>, q: seq<nat>, i: nat)
    requires Links(next, q) && i < TASKS
    ensures i in q ==> next[i] in q && next[i] != NULL
    ensures next[i] != NULL ==> i in q
  {
    if i in q {
      var j :| 0 <= j < |q| && q[j] == i;
      LinkAt(next, q, j);
    }
  }

  lemma StillLinked(s: Sched, i: nat)
    requires Inv(s) && Legal(s, Unlink(i))
    ensures i in s.queue && i != BOOT && i != Current(s)
    ensures Without(s.queue, i) != [] && Without(s.queue, i)[|Without(s.queue, i)| - 1] == Current(s)
  {
    WithoutNoDup(s.queue, i);
  }

  lemma LinksCutBack(next: seq<int>, q: seq<nat>, i: nat, j: nat)
    requires BOOT in q && NoDup(q) && i in q && i != BOOT && Links(next, FromBoot(q)) && 0 < j < |q| && FromBoot(q)[j] == i
    ensures Links(next[FromBoot(q)[j - 1] := next[i]][i := NULL], Without(q, i))
  {
    LinksRemove(next, FromBoot(q), j);
    WithoutFromBoot(q, i);
    LinksBack(Bypass(next, FromBoot(q), j), Without(q, i));
  }

  lemma NotLinked(s: Sched, i: nat)
    requires Inv(s) && Legal(s, Create(i))
    ensures i !in s.queue && i !in FromBoot(s.queue)
    ensures |Insert(s.queue, i)| == |s.queue| + 1 && Insert(s.queue, i)[|s.queue|] == Current(s)
  {
    FromBootNoDup(s.queue);
    InsertNoDup(s.queue, i);
  }

  lemma LinksAddedBack(next: seq<int>, q: seq<nat>, i: nat)
    requires BOOT in q && Links(next, FromBoot(q)) && i < TASKS && i !in q && i !in FromBoot(q)
    ensures Links(next[i := FromBoot(q)[0]][FromBoot(q)[|q| - 1] := i], Insert(q, i))
  {
    LinksAppend(next, FromBoot(q), i);
    LinksInsert(next[i := FromBoot(q)[0]][FromBoot(q)[|q| - 1] := i], q, i);
  }

  lemma ModelFacts(s: Sched)
    requires Inv(s)
    ensures Shape(s) && NoDup(s.queue) && |s.queue| > 0 && BOOT in s.queue && Current(s) < TASKS && |s.state| == TASKS && |s.live| == TASKS
    ensures forall k :: 0 <= k < |s.queue| ==> s.queue[k] < TASKS
  {
  }

  lemma SliceKeeps(s: Sched)
    requires Inv(s) && s.slice > 0
    ensures Inv(s.(slice := s.slice - 1)) && Shape(s.(slice := s.slice - 1))
  {
  }
}
