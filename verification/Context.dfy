/**
 Context switches: what task_switch saves, restores and leaves alone.
 Addresses count 32-bit words, and a pointer to a task's saved stack pointer
 is the number of the task.
 */
module Context {
  import opened Machine
  import opened Words
  import opened PagingSpec
  import opened Tasks

  /** Memory, the registers a switch preserves, and the stack pointers saved in the control blocks. */
  datatype Cpu = Cpu(mem: seq<nat>, ebx: nat, esi: nat, edi: nat, ebp: nat, esp: nat, eip: nat, saved: seq<nat>)

  /** What a task must find again: its callee-saved registers, its stack pointer and where it goes on. */
  datatype Context = Context(ebx: nat, esi: nat, edi: nat, ebp: nat, esp: nat, eip: nat)

  function Registers(c: Cpu): (x: Context) {
    Context(c.ebx, c.esi, c.edi, c.ebp, c.esp, c.eip)
  }

  class Processor {
    var mem: seq<nat>
    var ebx: nat
    var esi: nat
    var edi: nat
    var ebp: nat
    var esp: nat
    var eip: nat
    var saved: seq<nat>

    constructor (c: Cpu)
      ensures State() == c
    {
      mem, ebx, esi, edi, ebp, esp, eip, saved := c.mem, c.ebx, c.esi, c.edi, c.ebp, c.esp, c.eip, c.saved;
    }

    function State(): (c: Cpu)
      reads this
    {
      Cpu(mem, ebx, esi, edi, ebp, esp, eip, saved)
    }

    method Push(v: nat)
      requires 0 < esp <= |mem|
      modifies this`mem, this`esp
      ensures esp == old(esp) - 1 && mem == old(mem)[esp := v]
    {
      esp := esp - 1;
      mem := mem[esp := v];
    }

    method Pop() returns (v: nat)
      requires esp < |mem|
      modifies this`esp
      ensures esp == old(esp) + 1 && v == mem[old(esp)]
    {
      v := mem[esp];
      esp := esp + 1;
    }

    /** push ebx, esi, edi, ebp. */
    method Save()
      requires 4 <= esp <= |mem|
      modifies this`mem, this`esp
      ensures esp == old(esp) - 4
      ensures mem == old(mem)[esp + 3 := ebx][esp + 2 := esi][esp + 1 := edi][esp := ebp]
    {
      Push(ebx);
      Push(esi);
      Push(edi);
      Push(ebp);
    }

    /** pop ebp, edi, esi, ebx; ret. */
    method Restore()
      requires esp + 5 <= |mem|
      modifies this`ebx, this`esi, this`edi, this`ebp, this`esp, this`eip
      ensures esp == old(esp) + 5 && ebp == mem[old(esp)] && edi == mem[old(esp) + 1] && esi == mem[old(esp) + 2]
      ensures ebx == mem[old(esp) + 3] && eip == mem[old(esp) + 4]
    {
      ebp := Pop();
      edi := Pop();
      esi := Pop();
      ebx := Pop();
      eip := Pop();
    }

    /** switch.asm, instruction by instruction. */
    method TaskSwitch()
      requires CanSwitch(State())
      modifies this
      ensures State() == Switched(old(State()))
    {
      Save();
      var oldEsp := mem[esp + 5];
      saved := saved[oldEsp := esp];
      esp := mem[esp + 6];
      Restore();
    }
  }

  // ----- The effect of a switch

  /** On entry [esp] is the return address, [esp + 1] and [esp + 2] the arguments. */
  predicate CanSwitch(c: Cpu) {
    && 4 <= c.esp && c.esp + 2 < |c.mem| && c.mem[c.esp + 1] < |c.saved| && c.mem[c.esp + 2] + 5 <= |c.mem|
  }

  function Switched(c: Cpu): (r: Cpu)
    requires CanSwitch(c)
  {
    var m := c.mem[c.esp - 1 := c.ebx][c.esp - 2 := c.esi][c.esp - 3 := c.edi][c.esp - 4 := c.ebp];
    var n := c.mem[c.esp + 2];
    Cpu(m, m[n + 3], m[n + 2], m[n + 1], m[n], n + 5, m[n + 4], c.saved[c.mem[c.esp + 1] := c.esp - 4])
  }

  /** The call task_switch(&old->esp, new->esp), returning to `ret`. */
  function Called(c: Cpu, old': nat, new': nat, ret: nat): (r: Cpu)
    requires 3 <= c.esp <= |c.mem|
  {
    c.(mem := c.mem[c.esp - 1 := new'][c.esp - 2 := old'][c.esp - 3 := ret], esp := c.esp - 3)
  }

  // ----- Tasks and their stacks

  /** The stack of each task, from `lo` up to `hi`. */
  datatype Stacks = Stacks(lo: seq<nat>, hi: seq<nat>)

  /** The processor, the stacks, the tasks that exist, the running one and the contexts the others were left in. */
  datatype World = World(c: Cpu, k: Stacks, tasks: set<nat>, cur: nat, xs: seq<Context>)

  predicate InStack(k: Stacks, t: nat, a: nat)
    requires |k.lo| == |k.hi| && t < |k.lo|
  {
    k.lo[t] <= a < k.hi[t]
  }

  predicate Shaped(w: World) {
    && |w.k.lo| == |w.k.hi| == |w.xs| == |w.c.saved| && w.cur in w.tasks
    && forall t :: t in w.tasks ==> t < |w.xs| && w.k.lo[t] <= w.k.hi[t] <= |w.c.mem|
  }

  /** Stacks of different tasks do not overlap. */
  ghost predicate Apart(w: World)
    requires Shaped(w)
  {
    forall t, u, a: nat :: t in w.tasks && u in w.tasks && t != u && InStack(w.k, t, a) ==> !InStack(w.k, u, a)
  }

  /** Task `t` is switched out, and its frame holds the context `x`. */
  predicate Parked(c: Cpu, k: Stacks, t: nat, x: Context)
    requires |k.lo| == |k.hi| && t < |k.lo|
  {
    && t < |c.saved| && k.lo[t] <= c.saved[t] && c.saved[t] + 5 == x.esp <= k.hi[t] <= |c.mem|
    && c.mem[c.saved[t]] == x.ebp && c.mem[c.saved[t] + 1] == x.edi && c.mem[c.saved[t] + 2] == x.esi
    && c.mem[c.saved[t] + 3] == x.ebx && c.mem[c.saved[t] + 4] == x.eip
  }

  /** The current task runs on its own stack; every other task is parked with its context. */
  ghost predicate Sound(w: World) {
    && Shaped(w) && Apart(w) && w.k.lo[w.cur] <= w.c.esp <= w.k.hi[w.cur]
    && forall t :: t in w.tasks && t != w.cur ==> Parked(w.c, w.k, t, w.xs[t])
  }

  /** A parked task stays parked when its stack and its saved stack pointer do not change. */
  lemma ParkedStays(c: Cpu, k: Stacks, t: nat, x: Context, d: Cpu, k': Stacks)
    requires |k.lo| == |k.hi| && t < |k.lo| && Parked(c, k, t, x) && |d.mem| == |c.mem| && |d.saved| == |c.saved|
    requires |k'.lo| == |k'.hi| && t < |k'.lo| && k'.lo[t] == k.lo[t] && k'.hi[t] == k.hi[t] && d.saved[t] == c.saved[t]
    requires forall a: nat :: InStack(k, t, a) && a < |c.mem| ==> d.mem[a] == c.mem[a]
    ensures Parked(d, k', t, x)
  {
    var a := c.saved[t];
    assert InStack(k, t, a) && InStack(k, t, a + 1) && InStack(k, t, a + 2) && InStack(k, t, a + 3) && InStack(k, t, a + 4);
  }

  // ----- Computing

  /** The running task may change its registers and any memory outside the other stacks. */
  ghost predicate Works(w: World, d: Cpu)
    requires Shaped(w)
  {
    && |d.mem| == |w.c.mem| && d.saved == w.c.saved && w.k.lo[w.cur] <= d.esp <= w.k.hi[w.cur]
    && forall t, a: nat :: t in w.tasks && t != w.cur && InStack(w.k, t, a) && a < |d.mem| ==> d.mem[a] == w.c.mem[a]
  }

  lemma WorkKeeps(w: World, d: Cpu)
    requires Sound(w) && Works(w, d)
    ensures Sound(w.(c := d))
  {
    forall t | t in w.tasks && t != w.cur ensures Parked(d, w.k, t, w.xs[t]) {
      ParkedStays(w.c, w.k, t, w.xs[t], d, w.k);
    }
  }

  // ----- Switching

  /** A switch to `t` with seven words of stack left. */
  predicate CanSwitchTo(w: World, t: nat)
    requires Shaped(w)
  {
    t in w.tasks && t != w.cur && w.k.lo[w.cur] + 7 <= w.c.esp
  }

  /** What the running task will find when it is resumed. */
  function Suspended(c: Cpu, ret: nat): (x: Context)
    requires 2 <= c.esp
  {
    Context(c.ebx, c.esi, c.edi, c.ebp, c.esp - 2, ret)
  }

  lemma SwitchReady(w: World, t: nat, ret: nat)
    requires Sound(w) && CanSwitchTo(w, t)
    ensures 7 <= w.c.esp <= |w.c.mem| && CanSwitch(Called(w.c, w.cur, w.c.saved[t], ret))
  {
    assert Parked(w.c, w.k, t, w.xs[t]);
  }

  /** The processor after the switch. */
  function SwitchedTo(w: World, t: nat, ret: nat): (c: Cpu)
    requires 7 <= w.c.esp <= |w.c.mem| && t < |w.c.saved| && CanSwitch(Called(w.c, w.cur, w.c.saved[t], ret))
  {
    Switched(Called(w.c, w.cur, w.c.saved[t], ret))
  }

  /** Only the running task's stack is written, and only its saved stack pointer changes. */
  lemma SwitchWrites(w: World, t: nat, ret: nat)
    requires Sound(w) && CanSwitchTo(w, t)
    ensures 7 <= w.c.esp <= |w.c.mem| && CanSwitch(Called(w.c, w.cur, w.c.saved[t], ret))
    ensures var r := SwitchedTo(w, t, ret);
            && |r.mem| == |w.c.mem| && r.saved == w.c.saved[w.cur := w.c.esp - 7]
            && forall a: nat :: a < |r.mem| && !InStack(w.k, w.cur, a) ==> r.mem[a] == w.c.mem[a]
  {
    SwitchReady(w, t, ret);
  }

  /** The task switched to has the registers, stack and place it had when it was switched out. */
  lemma SwitchResumes(w: World, t: nat, ret: nat)
    requires Sound(w) && CanSwitchTo(w, t)
    ensures 7 <= w.c.esp <= |w.c.mem| && CanSwitch(Called(w.c, w.cur, w.c.saved[t], ret))
    ensures Registers(SwitchedTo(w, t, ret)) == w.xs[t]
  {
    SwitchReady(w, t, ret);
    SwitchWrites(w, t, ret);
    assert Parked(w.c, w.k, t, w.xs[t]);
    var a := w.c.saved[t];
    assert InStack(w.k, t, a) && InStack(w.k, t, a + 1) && InStack(w.k, t, a + 2) && InStack(w.k, t, a + 3) && InStack(w.k, t, a + 4);
  }

  /** ... and the task switched from is parked with the context it had. */
  lemma SwitchParks(w: World, t: nat, ret: nat)
    requires Sound(w) && CanSwitchTo(w, t)
    ensures 7 <= w.c.esp <= |w.c.mem| && CanSwitch(Called(w.c, w.cur, w.c.saved[t], ret))
    ensures Parked(SwitchedTo(w, t, ret), w.k, w.cur, Suspended(w.c, ret))
  {
    SwitchReady(w, t, ret);
  }

  lemma SwitchKeeps(w: World, t: nat, ret: nat)
    requires Sound(w) && CanSwitchTo(w, t)
    ensures 7 <= w.c.esp <= |w.c.mem| && CanSwitch(Called(w.c, w.cur, w.c.saved[t], ret))
    ensures Sound(World(SwitchedTo(w, t, ret), w.k, w.tasks, t, w.xs[w.cur := Suspended(w.c, ret)]))
  {
    SwitchWrites(w, t, ret);
    SwitchResumes(w, t, ret);
    SwitchParks(w, t, ret);
    assert Parked(w.c, w.k, t, w.xs[t]);
    hide Switched, Called;
    var r, ys := SwitchedTo(w, t, ret), w.xs[w.cur := Suspended(w.c, ret)];
    forall u | u in w.tasks && u != t ensures Parked(r, w.k, u, ys[u]) {
      if u != w.cur {
        ParkedStays(w.c, w.k, u, w.xs[u], r, w.k);
      }
    }
  }

  // ----- New tasks

  /** How a task begins: in the kernel's wrapper, or in the trampoline to Ring 3. */
  datatype Start = KernelStart(wrapper: u32, entry: u32) | UserStart(trampoline: u32, entry: u32, userEsp: u32)

  /** The words task creation puts on the new stack. */
  function StartFrame(st: Start): (ws: seq<u32>)
    ensures 7 <= |ws| <= 10 && ws[0] == ws[1] == ws[2] == ws[3] == 0
    ensures ws[4] == if st.KernelStart? then st.wrapper else st.trampoline
  {
    match st
    case KernelStart(wrapper, entry) => KernelFrame(wrapper, entry)
    case UserStart(trampoline, entry, userEsp) => UserFrame(trampoline, entry, userEsp)
  }

  /** The word at `a` once the page `b` lies at word `base`. */
  function Overlaid(mem: seq<nat>, base: nat, b: seq<u8>, a: nat): (x: nat)
    requires |b| == 4096 && a < |mem|
  {
    if base <= a < base + 1024 then WordAt(b, 4 * (a - base)) else mem[a]
  }

  function Installed(mem: seq<nat>, base: nat, b: seq<u8>): (m: seq<nat>)
    requires |b| == 4096
    ensures |m| == |mem| && forall a: nat :: a < |mem| ==> m[a] == Overlaid(mem, base, b, a)
  {
    seq(|mem|, a requires 0 <= a < |mem| => Overlaid(mem, base, b, a))
  }

  /** Each word of the new stack is where the first switch looks for it. */
  lemma TopOfStack(mem: seq<nat>, base: nat, x: Frame, ws: seq<u32>, i: nat)
    requires |ws| <= 1024 && base + 1024 <= |mem| && i < |ws|
    ensures Installed(mem, base, StackPage(x, ws).bytes)[base + 1024 - |ws| + i] == ws[i]
  {
    TopWordsAt(Raw(x), ws, i);
    assert 4 * (1024 - |ws| + i) == 4096 - 4 * |ws| + 4 * i;
  }

  /** Slot `t` is unused and page `f` lies outside every stack. */
  ghost predicate CanCreate(w: World, t: nat, f: nat)
    requires Shaped(w)
  {
    && t < |w.xs| && t !in w.tasks && 1024 * f + 1024 <= |w.c.mem|
    && forall u, a: nat :: u in w.tasks && InStack(w.k, u, a) ==> !(1024 * f <= a < 1024 * f + 1024)
  }

  /** What the first switch will restore. */
  function FirstContext(st: Start, f: nat): (x: Context) {
    var ws := StartFrame(st);
    Context(0, 0, 0, 0, 1024 * f + 1024 - |ws| + 5, ws[4])
  }

  /** Task `t` on the stack page `f`, which held `x`. */
  ghost function Created(w: World, t: nat, f: nat, x: Frame, st: Start): (r: World)
    requires Shaped(w) && CanCreate(w, t, f)
  {
    var ws := StartFrame(st);
    World(w.c.(mem := Installed(w.c.mem, 1024 * f, StackPage(x, ws).bytes), saved := w.c.saved[t := 1024 * f + 1024 - |ws|]),
          Stacks(w.k.lo[t := 1024 * f], w.k.hi[t := 1024 * f + 1024]), w.tasks + {t}, w.cur, w.xs[t := FirstContext(st, f)])
  }

  /** The new stack and where its first frame lies. */
  lemma NewStack(w: World, t: nat, f: nat, x: Frame, st: Start)
    requires Sound(w) && CanCreate(w, t, f)
    ensures var r, ws := Created(w, t, f, x, st), StartFrame(st);
            && |r.k.lo| == |r.k.hi| && t < |r.k.lo| && r.k.lo[t] == 1024 * f && r.k.hi[t] == 1024 * f + 1024 <= |r.c.mem| == |w.c.mem|
            && t < |r.c.saved| && r.c.saved[t] == 1024 * f + 1024 - |ws|
            && r.c.mem == Installed(w.c.mem, 1024 * f, StackPage(x, ws).bytes)
  {
    hide StackPage, StartFrame, Parked, Apart, Installed;
  }

  lemma NewParked(w: World, t: nat, f: nat, x: Frame, st: Start)
    requires Sound(w) && CanCreate(w, t, f)
    ensures var r := Created(w, t, f, x, st); |r.k.lo| == |r.k.hi| && t < |r.k.lo| && Parked(r.c, r.k, t, FirstContext(st, f))
  {
    hide Sound, CanCreate, Created, Installed, StackPage, StartFrame;
    var ws := StartFrame(st);
    NewStack(w, t, f, x, st);
    TopOfStack(w.c.mem, 1024 * f, x, ws, 0);
    TopOfStack(w.c.mem, 1024 * f, x, ws, 1);
    TopOfStack(w.c.mem, 1024 * f, x, ws, 2);
    TopOfStack(w.c.mem, 1024 * f, x, ws, 3);
    TopOfStack(w.c.mem, 1024 * f, x, ws, 4);
  }

  lemma CreateApart(w: World, t: nat, f: nat, x: Frame, st: Start)
    requires Sound(w) && CanCreate(w, t, f)
    ensures Shaped(Created(w, t, f, x, st)) && Apart(Created(w, t, f, x, st))
  {
    hide StackPage, StartFrame, Parked, Installed;
    var r := Created(w, t, f, x, st);
    forall u, v, a: nat | u in r.tasks && v in r.tasks && u != v && InStack(r.k, u, a) ensures !InStack(r.k, v, a) {
      assert u != t ==> InStack(w.k, u, a);
      assert v != t ==> (InStack(w.k, v, a) <==> InStack(r.k, v, a));
    }
  }

  /** The new page lies outside the stack of any task that exists. */
  lemma CreateSpares(w: World, t: nat, f: nat, x: Frame, st: Start, u: nat)
    requires Sound(w) && CanCreate(w, t, f) && u in w.tasks
    ensures var r := Created(w, t, f, x, st);
            && |r.c.mem| == |w.c.mem| && |r.c.saved| == |w.c.saved| && |r.k.lo| == |r.k.hi| == |w.k.lo|
            && r.k.lo[u] == w.k.lo[u] && r.k.hi[u] == w.k.hi[u] && r.c.saved[u] == w.c.saved[u] && r.xs[u] == w.xs[u]
            && forall a: nat :: InStack(w.k, u, a) && a < |w.c.mem| ==> r.c.mem[a] == w.c.mem[a]
    ensures var r := Created(w, t, f, x, st);
            r.tasks == w.tasks + {t} && r.cur == w.cur && r.c.esp == w.c.esp && r.xs == w.xs[t := FirstContext(st, f)]
  {
    hide StackPage, StartFrame, Parked;
  }

  lemma CreateKeeps(w: World, t: nat, f: nat, x: Frame, st: Start)
    requires Sound(w) && CanCreate(w, t, f)
    ensures Sound(Created(w, t, f, x, st))
  {
    NewParked(w, t, f, x, st);
    CreateApart(w, t, f, x, st);
    CreateSpares(w, t, f, x, st, w.cur);
    hide Created, FirstContext, Parked, Apart;
    var r := Created(w, t, f, x, st);
    forall u | u in r.tasks && u != r.cur ensures Parked(r.c, r.k, u, r.xs[u]) {
      if u != t {
        CreateSpares(w, t, f, x, st, u);
        ParkedStays(w.c, w.k, u, w.xs[u], r.c, r.k);
      }
    }
  }

  // ----- Runs

  datatype Step = Work(after: Cpu) | Switch(to: nat, ret: nat) | Create(t: nat, f: nat, x: Frame, st: Start) | Retire(t: nat)

  ghost predicate Legal(w: World, step: Step) {
    && Sound(w)
    && match step
       case Work(d) => Works(w, d)
       case Switch(t, _) => CanSwitchTo(w, t)
       case Create(t, f, _, _) => CanCreate(w, t, f)
       case Retire(t) => t in w.tasks && t != w.cur
  }

  ghost function Next(w: World, step: Step): (r: World)
    requires Legal(w, step)
  {
    match step
    case Work(d) => w.(c := d)
    case Switch(t, ret) =>
      SwitchReady(w, t, ret);
      World(SwitchedTo(w, t, ret), w.k, w.tasks, t, w.xs[w.cur := Suspended(w.c, ret)])
    case Create(t, f, x, st) => Created(w, t, f, x, st)
    case Retire(t) => w.(tasks := w.tasks - {t})
  }

  lemma StepKeeps(w: World, step: Step)
    requires Legal(w, step)
    ensures Sound(Next(w, step))
  {
    hide Sound, Works, CanSwitchTo, CanCreate, Created;
    match step
    case Work(d) => WorkKeeps(w, d);
    case Switch(t, ret) => SwitchKeeps(w, t, ret);
    case Create(t, f, x, st) => CreateKeeps(w, t, f, x, st);
    case Retire(t) => RetireKeeps(w, t);
  }

  lemma RetireKeeps(w: World, t: nat)
    requires Sound(w) && t != w.cur
    ensures Sound(w.(tasks := w.tasks - {t}))
  {
  }

  ghost predicate IsRun(ws: seq<World>, steps: seq<Step>) {
    && |ws| == |steps| + 1
    && forall i :: 0 <= i < |steps| ==> Legal(ws[i], steps[i]) && ws[i + 1] == Next(ws[i], steps[i])
  }

  /** A step that neither resumes task `u` nor removes it. */
  predicate Spares(step: Step, u: nat) {
    !(step.Switch? && step.to == u) && !(step.Retire? && step.t == u)
  }

  /** Task `u` waits with context `x` on the same stack with the same contents. */
  ghost predicate Waits(w: World, u: nat, x: Context, v: World) {
    && Shaped(w) && Shaped(v) && u in w.tasks && u in v.tasks && v.cur != u && v.xs[u] == x
    && v.k.lo[u] == w.k.lo[u] && v.k.hi[u] == w.k.hi[u] && |v.c.mem| == |w.c.mem|
    && forall a: nat :: InStack(w.k, u, a) && a < |w.c.mem| ==> v.c.mem[a] == w.c.mem[a]
  }

  lemma Undisturbed(w: World, u: nat, step: Step)
    requires Legal(w, step) && u in w.tasks && u != w.cur && Spares(step, u)
    ensures Waits(w, u, w.xs[u], Next(w, step))
  {
    StepKeeps(w, step);
    match step
    case Work(d) =>
    case Switch(t, ret) => SwitchSpares(w, t, ret, u);
    case Create(t, f, x, st) =>
      CreateSpares(w, t, f, x, st, u);
      hide Created;
      assert Waits(w, u, w.xs[u], Next(w, step));
    case Retire(t) =>
  }

  lemma SwitchSpares(w: World, t: nat, ret: nat, u: nat)
    requires Sound(w) && CanSwitchTo(w, t) && u in w.tasks && u != w.cur && u != t
    ensures Waits(w, u, w.xs[u], Next(w, Switch(t, ret)))
  {
    SwitchWrites(w, t, ret);
    hide Switched, Called, Parked;
  }

  /** While it is spared, a task that waits goes on waiting. */
  lemma {:induction false} WaitsOn(ws: seq<World>, steps: seq<Step>, i: nat, j: nat, u: nat)
    requires IsRun(ws, steps) && i <= j <= |steps| && Sound(ws[i]) && u in ws[i].tasks && u != ws[i].cur
    requires forall l :: i <= l < j ==> Spares(steps[l], u)
    ensures Waits(ws[i], u, ws[i].xs[u], ws[j])
  {
    if i < j {
      WaitsOn(ws, steps, i, j - 1, u);
      hide Sound, Next;
      Undisturbed(ws[j - 1], u, steps[j - 1]);
      assert ws[j] == Next(ws[j - 1], steps[j - 1]);
    }
  }

  /**
   In any run of computations, switches, creations and removals, a task that is
   resumed has the callee-saved registers and the stack pointer it had when it
   was switched out, and goes on where that switch returns.
   */
  lemma Resumes(ws: seq<World>, steps: seq<Step>, i: nat, j: nat, u: nat)
    requires IsRun(ws, steps) && i < j < |steps| && steps[i].Switch? && ws[i].cur == u
    requires steps[j].Switch? && steps[j].to == u && forall l :: i < l < j ==> Spares(steps[l], u)
    ensures 2 <= ws[i].c.esp && Registers(ws[j + 1].c) == Suspended(ws[i].c, steps[i].ret) && ws[j + 1].cur == u
  {
    assert Legal(ws[i], steps[i]) && ws[i + 1] == Next(ws[i], steps[i]);
    StepKeeps(ws[i], steps[i]);
    WaitsOn(ws, steps, i + 1, j, u);
    assert Legal(ws[j], steps[j]) && ws[j + 1] == Next(ws[j], steps[j]);
    SwitchResumes(ws[j], u, steps[j].ret);
  }

  lemma CreatedIs(w: World, t: nat, f: nat, x: Frame, st: Start)
    requires Sound(w) && CanCreate(w, t, f)
    ensures var r := Created(w, t, f, x, st);
            && Sound(r) && Shaped(r) && t in r.tasks && t != r.cur && r.xs[t] == FirstContext(st, f) && |r.c.mem| == |w.c.mem|
            && r.k.lo[t] == 1024 * f && r.k.hi[t] == 1024 * f + 1024 <= |r.c.mem|
            && r.c.mem == Installed(w.c.mem, 1024 * f, StackPage(x, StartFrame(st)).bytes)
  {
    CreateKeeps(w, t, f, x, st);
    hide StackPage, StartFrame, Parked, Apart, Installed;
  }

  /** The switch back to a waiting task finds its context and its stack as they were. */
  lemma FoundAgain(w: World, v: World, u: nat, ret: nat)
    requires Shaped(w) && u in w.tasks && Waits(w, u, w.xs[u], v) && Sound(v) && CanSwitchTo(v, u)
    ensures var r := Next(v, Switch(u, ret));
            && Registers(r.c) == w.xs[u] && r.cur == u && |r.c.mem| == |w.c.mem|
            && forall a: nat :: w.k.lo[u] <= a < w.k.hi[u] ==> r.c.mem[a] == w.c.mem[a]
  {
    SwitchResumes(v, u, ret);
    SwitchWrites(v, u, ret);
    hide Switched, Called, Parked;
    var r := Next(v, Switch(u, ret));
    forall a: nat | w.k.lo[u] <= a < w.k.hi[u] ensures r.c.mem[a] == w.c.mem[a] {
      assert InStack(w.k, u, a) && InStack(v.k, u, a);
    }
  }

  /** What the first switch to a task created in step `i` finds: its context, and the page as it was written. */
  lemma FirstSwitch(ws: seq<World>, steps: seq<Step>, i: nat, j: nat)
    requires IsRun(ws, steps) && i < j < |steps| && steps[i].Create?
    requires steps[j].Switch? && steps[j].to == steps[i].t && forall l :: i < l < j ==> Spares(steps[l], steps[i].t)
    ensures var Create(t, f, x, st) := steps[i];
            && Registers(ws[j + 1].c) == FirstContext(st, f) && ws[j + 1].cur == t
            && 1024 * f + 1024 <= |ws[i].c.mem| == |ws[j + 1].c.mem|
            && forall a: nat :: 1024 * f <= a < 1024 * f + 1024 ==>
                 ws[j + 1].c.mem[a] == Installed(ws[i].c.mem, 1024 * f, StackPage(x, StartFrame(st)).bytes)[a]
  {
    hide StackPage, StartFrame, Switched, Called, Sound, Waits, Created, Installed;
    var Create(t, f, x, st) := steps[i];
    assert Legal(ws[i], steps[i]) && ws[i + 1] == Next(ws[i], steps[i]);
    CreatedIs(ws[i], t, f, x, st);
    WaitsOn(ws, steps, i + 1, j, t);
    assert Legal(ws[j], steps[j]) && ws[j + 1] == Next(ws[j], steps[j]);
    FoundAgain(ws[i + 1], ws[j], t, steps[j].ret);
  }

  /** In any run, the first switch to a kernel task enters the wrapper, with a null return address and the entry point as its argument. */
  lemma FirstSwitchKernel(ws: seq<World>, steps: seq<Step>, i: nat, j: nat)
    requires IsRun(ws, steps) && i < j < |steps| && steps[i].Create? && steps[i].st.KernelStart?
    requires steps[j].Switch? && steps[j].to == steps[i].t && forall l :: i < l < j ==> Spares(steps[l], steps[i].t)
    ensures var c := ws[j + 1].c;
            && c.eip == steps[i].st.wrapper && c.ebx == c.esi == c.edi == c.ebp == 0
            && c.esp + 1 < |c.mem| && c.mem[c.esp] == 0 && c.mem[c.esp + 1] == steps[i].st.entry
  {
    hide Legal, Next, StackPage;
    FirstSwitch(ws, steps, i, j);
    var Create(t, f, x, st) := steps[i];
    TopOfStack(ws[i].c.mem, 1024 * f, x, StartFrame(st), 5);
    TopOfStack(ws[i].c.mem, 1024 * f, x, StartFrame(st), 6);
  }

  /** What iret pops: instruction pointer, code segment, flags, stack pointer, stack segment. */
  function Iret(c: Cpu): (ws: seq<nat>)
    requires c.esp + 5 <= |c.mem|
  {
    c.mem[c.esp..c.esp + 5]
  }

  lemma UserWords(st: Start, f: nat)
    requires st.UserStart?
    ensures var ws := StartFrame(st);
            |ws| == 10 && ws[5] == st.entry && ws[6] == 0x1B && ws[7] == 0x202 && ws[8] == st.userEsp && ws[9] == 0x23
    ensures FirstContext(st, f) == Context(0, 0, 0, 0, 1024 * f + 1019, st.trampoline)
  {
  }

  /** A word above the switch frame is on the stack as it was laid out. */
  lemma FoundWord(ws: seq<World>, steps: seq<Step>, i: nat, j: nat, n: nat)
    requires IsRun(ws, steps) && i < j < |steps| && steps[i].Create? && steps[i].st.UserStart? && 5 <= n < 10
    requires steps[j].Switch? && steps[j].to == steps[i].t && forall l :: i < l < j ==> Spares(steps[l], steps[i].t)
    ensures |StartFrame(steps[i].st)| == 10 && 1024 * steps[i].f + 1024 <= |ws[j + 1].c.mem|
    ensures ws[j + 1].c.mem[1024 * steps[i].f + 1014 + n] == StartFrame(steps[i].st)[n]
  {
    hide Legal, Next, StackPage, Installed, StartFrame, FirstContext, Registers;
    FirstSwitch(ws, steps, i, j);
    var Create(t, f, x, st) := steps[i];
    UserWords(st, f);
    TopOfStack(ws[i].c.mem, 1024 * f, x, StartFrame(st), n);
  }

  /** In any run, the first switch to a user task enters the trampoline, whose iret drops to Ring 3 at the entry point. */
  lemma FirstSwitchUser(ws: seq<World>, steps: seq<Step>, i: nat, j: nat)
    requires IsRun(ws, steps) && i < j < |steps| && steps[i].Create? && steps[i].st.UserStart?
    requires steps[j].Switch? && steps[j].to == steps[i].t && forall l :: i < l < j ==> Spares(steps[l], steps[i].t)
    ensures var c := ws[j + 1].c;
            && c.eip == steps[i].st.trampoline && c.ebx == c.esi == c.edi == c.ebp == 0
            && c.esp + 5 <= |c.mem| && Iret(c) == [steps[i].st.entry, 0x1B, 0x202, steps[i].st.userEsp, 0x23]
  {
    hide Legal, Next, StackPage, Installed, StartFrame, FirstContext;
    FirstSwitch(ws, steps, i, j);
    UserWords(steps[i].st, steps[i].f);
    hide IsRun, Spares;
    FoundWord(ws, steps, i, j, 5);
    FoundWord(ws, steps, i, j, 6);
    FoundWord(ws, steps, i, j, 7);
    FoundWord(ws, steps, i, j, 8);
    FoundWord(ws, steps, i, j, 9);
  }
}
