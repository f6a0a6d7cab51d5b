/**
 The exec command from the typed line to the arguments main receives.
 */
module Launch {
  import opened Machine
  import opened CString
  import opened Exec
  import opened Argv
  import opened FsSpec
  import opened SimpleFs
  import opened Kmalloc
  import opened PagingSpec
  import opened ProcessBuild
  import opened TaskSpec
  import opened KernelSteps
  import opened Tasks
  import opened ElfSpec
  import opened Elf
  import opened ElfExec

  // ----- A typed line always fits the stack page

  lemma {:induction false} SizeTail(t: seq<u8>, ts: seq<seq<u8>>, i: nat)
    ensures Size([t] + ts, i + 1) == Size(ts, i)
    decreases |ts| - i
  {
    if i < |ts| {
      SizeTail(t, ts, i + 1);
    }
  }

  lemma {:induction false} SizeOfPrefix(ts: seq<seq<u8>>, n: nat, i: nat)
    requires n <= |ts|
    ensures Size(ts[..n], i) <= Size(ts, i)
    decreases n - i
  {
    if i < n {
      SizeOfPrefix(ts, n, i + 1);
    }
  }

  /** The words of a line, with their NULs, take at most one byte more than the line. */
  lemma {:induction false} TokensSize(c: seq<u8>, p: nat)
    requires p <= |c|
    ensures Size(TokensFrom(c, p), 0) <= |c| - p + 1
    decreases |c| - p
  {
    if p < |c| {
      if c[p] == SPACE {
        TokensSize(c, p + 1);
      } else {
        var e := WordEnd(c, p);
        SizeTail(c[p..e], TokensFrom(c, e), 0);
        if e < |c| {
          TokensSize(c, e + 1);
        }
      }
    }
  }

  lemma ArgumentsFit(c: seq<u8>)
    requires |c| <= 255
    ensures !TooLarge(Arguments(c))
  {
    TokensSize(c, 0);
    if |Tokens(c)| > MAX_ARGS {
      SizeOfPrefix(Tokens(c), MAX_ARGS, 0);
    }
  }

  // ----- What user code reads

  /** Reading the stack page through the process's own directory gives the bytes the loader wrote. */
  lemma StackReads(mem: Phys, d: nat, stack: seq<u8>, v: u32)
    requires |stack| == 4096 && ViewAt(mem, d, STACK_PAGE) == Page(stack, true, true)
    requires USER_STACK_VIRT <= v < USER_STACK_TOP
    ensures ByteAt(mem, d, v) == stack[v - USER_STACK_VIRT]
  {
    assert v / 0x1000 == STACK_PAGE && v % 0x1000 == v - USER_STACK_VIRT;
  }

  /** Pointers into the split line, as the buffers from there on. */
  function Pointers(b: seq<u8>, argv: seq<nat>): (ps: seq<seq<u8>>)
    requires forall k :: 0 <= k < |argv| ==> argv[k] <= |b|
    ensures |ps| == |argv| && forall k :: 0 <= k < |argv| ==> ps[k] == b[argv[k]..]
  {
    seq(|argv|, k requires 0 <= k < |argv| => b[argv[k]..])
  }

  /**
   exec: splits the line and starts the program its first word names. A process
   that is spawned receives exactly the first sixteen words as its arguments.
   */
  method RunCommand(tm: TaskManager, fs: FileSystem, heap: Heap, buf: array<u8>, line: seq<u8>)
    returns (i: nat, ghost stack: seq<u8>, ghost leak: set<nat>)
    requires tm.Valid() && fs.Valid() && heap.Valid() && buf.Length == 256 && Terminated(line)
    requires forall bytes :: Arguments(Command(line)) != [] && Lookup(fs.dev.blocks, Arguments(Command(line))[0]) == Some(File(bytes)) ==>
               WellFormed(bytes)
    modifies buf, tm, tm.queue, tm.mmu, tm.mmu.pmm, tm.mmu.pmm.bitmap, heap, heap.mem
    ensures tm.Valid() && tm.base == old(tm.base) + leak && heap.Valid() && heap.blocks == old(heap.blocks)
    ensures Arguments(Command(line)) == [] ==> i == MAX_TASKS && tm.K() == old(tm.K()) && leak == {}
    ensures Arguments(Command(line)) != [] ==>
              Ran(Program(fs.dev.blocks, Arguments(Command(line))[0], old(heap.blocks)), old(tm.K()), Arguments(Command(line)), i, stack,
                  leak, tm.K(), tm.enterUsermode)
  {
    hide WellFormed, Terminated, Str, Arguments, Command, Placeable, ExecEnds, Coherent, TaskManager.K, Program, Lookup;
    hide FileSystem.Valid, Heap.Valid, Ran, SamePayload;
    stack, leak := Zeros(4096), {};
    assert tm.base + {} == tm.base;
    var argv := Tokenize(buf, line);
    if |argv| == 0 {
      return MAX_TASKS, stack, leak;
    }
    ArgumentsFit(Command(line));
    var args := Pointers(buf[..], argv);
    AtMostSixteen(Command(line));
    assert Strs(args) == Arguments(Command(line));
    FewPlaceable(Strs(args));
    i, stack, leak := ElfExec.Exec(tm, fs, heap, args[0], args);
    Delivered(Program(fs.dev.blocks, Str(args[0]), old(heap.blocks)), old(tm.K()), args, i, stack, leak, tm.K(), tm.enterUsermode);
  }

  /** The program was started as `Exec` says, and its stack holds the arguments. */
  ghost predicate Ran(program: Option<seq<u8>>, k0: Kernel, args: seq<seq<u8>>, i: nat, stack: seq<u8>, leak: set<nat>, k: Kernel,
                      enterUsermode: u32) {
    && (exists argv :: Strs(argv) == args && ExecEnds(program, k0, argv, i, stack, leak, k, enterUsermode))
    && (i < MAX_TASKS ==>
          && i < |k.pool| && |stack| == 4096 && Receives(stack, k.pool[i].userStackTop, args)
          && forall v: u32 :: USER_STACK_VIRT <= v < USER_STACK_TOP ==>
               ByteAt(k.sys.mem, k.pool[i].pageDir, v) == stack[v - USER_STACK_VIRT])
  }

  lemma FewPlaceable(args: seq<seq<u8>>)
    requires |args| <= MAX_ARGS
    ensures Placeable(args)
  {
  }

  lemma AtMostSixteen(c: seq<u8>)
    ensures |Arguments(c)| <= MAX_ARGS
  {
  }

  lemma Delivered(program: Option<seq<u8>>, k0: Kernel, argv: seq<seq<u8>>, i: nat, stack: seq<u8>, leak: set<nat>, k: Kernel,
                  enterUsermode: u32)
    requires ExecEnds(program, k0, argv, i, stack, leak, k, enterUsermode) && |argv| > 0 && !TooLarge(Strs(argv))
    ensures Ran(program, k0, Strs(argv), i, stack, leak, k, enterUsermode)
  {
    hide Losses, Succeeds, Next, Receives, Started, WellFormed, TooLarge;
    if i < MAX_TASKS {
      var d := k.pool[i].pageDir;
      StartedStack(k.sys.mem, k.pool[i], program.value, argv, stack, k0.sys, Dirs(Settled(k0)), enterUsermode);
      forall v: u32 | USER_STACK_VIRT <= v < USER_STACK_TOP ensures ByteAt(k.sys.mem, d, v) == stack[v - USER_STACK_VIRT] {
        StackReads(k.sys.mem, d, stack, v);
      }
    }
  }

  lemma StartedStack(mem: Phys, t: Tcb, file: seq<u8>, argv: seq<seq<u8>>, stack: seq<u8>, s0: Sys, dirs: set<nat>, enterUsermode: u32)
    requires WellFormed(file) && Started(mem, t, file, argv, stack, s0, dirs, enterUsermode)
    requires |argv| > 0 && !TooLarge(Strs(argv))
    ensures |stack| == 4096 && Receives(stack, t.userStackTop, Strs(argv))
    ensures ViewAt(mem, t.pageDir, STACK_PAGE) == Page(stack, true, true)
  {
  }
}
