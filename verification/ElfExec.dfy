/**
 elf_exec: a program is looked up by name, read into a buffer from the kernel
 heap, loaded, and the buffer freed.
 */
module ElfExec {
  import opened Machine
  import opened CString
  import opened FsLayout
  import opened FsSpec
  import FsProtocol
  import opened SimpleFs
  import opened Kmalloc
  import H = HeapRuns
  import HeapSpec
  import opened Argv
  import opened TaskSpec
  import opened KernelSteps
  import opened Tasks
  import opened ElfSpec
  import opened Elf

  const MAX_FILE_SIZE: nat := 0x4_0000

  /** Some free block of the heap can hold `n` bytes. */
  ghost predicate HasRoom(bs: seq<HeapSpec.Block>, n: u32) {
    exists b :: b in bs && HeapSpec.FitsIn(b, HeapSpec.Total(n))
  }

  function Lookup(disk: Disk, name: Name): (r: Option<Node>) {
    if |disk| >= DATA_START then View(disk, name) else None
  }

  /** The bytes handed to the loader: a file of acceptable size under that name, if the heap can take it. */
  ghost function Program(disk: Disk, name: Name, bs: seq<HeapSpec.Block>): (r: Option<seq<u8>>) {
    match Lookup(disk, name)
    case Some(File(bytes)) =>
      if 52 <= |bytes| <= 0x4_0000 && HasRoom(bs, |bytes|) then Some(bytes) else None
    case _ => None
  }

  /** A file is as long as its entry says. */
  lemma StatSize(disk: Disk, name: Name)
    requires DiskOk(disk)
    ensures var i := Find(Entries(disk), name);
            i < FS_MAX_ENTRIES ==>
              && View(disk, name) == Some(NodeAt(disk, Entries(disk)[i])) && Entries(disk)[i].kind in {TYPE_FILE, TYPE_DIR}
              && (Entries(disk)[i].kind == TYPE_DIR ==> View(disk, name).value.Dir?)
              && (Entries(disk)[i].kind == TYPE_FILE ==>
                    View(disk, name).value.File? && |View(disk, name).value.bytes| == Entries(disk)[i].size)
    ensures |disk| >= DATA_START
    ensures Find(Entries(disk), name) >= FS_MAX_ENTRIES ==> View(disk, name) == None
  {
    var i := Find(Entries(disk), name);
    if i < FS_MAX_ENTRIES && Entries(disk)[i].kind == TYPE_FILE {
      FileOnDisk(disk, i, 0);
    }
  }

  /** Allocating the buffer and freeing it again leaves every other payload alone. */
  lemma BufferGone(bs: seq<HeapSpec.Block>, size: u32, m0: seq<u32>, m1: seq<u32>, m2: seq<u32>)
    requires HeapSpec.Layout(bs) && 0 < size <= 0xFFFF_FFF4 && H.BestUpTo(bs, HeapSpec.Total(size), |bs|) >= 0
    requires forall b :: b in H.Live(bs) ==> SamePayload(m0, m1, b)
    requires forall b :: b in H.Live(H.Step(bs, H.Malloc(size))) && b.addr != bs[H.BestUpTo(bs, HeapSpec.Total(size), |bs|)].addr ==>
               SamePayload(m1, m2, b)
    ensures forall b :: b in H.Live(bs) ==> SamePayload(m0, m2, b)
  {
    forall b | b in H.Live(bs) ensures SamePayload(m0, m2, b) {
      H.OthersStay(bs, size, b);
    }
  }

  /** The buffer at `ptr` was carved out of a heap of blocks `bs` for `size` bytes. */
  ghost predicate Buffered(bs: seq<HeapSpec.Block>, size: u32, ptr: nat, bs': seq<HeapSpec.Block>) {
    && 0 < size <= MAX_FILE_SIZE && bs' == H.Step(bs, H.Malloc(size)) && H.BestUpTo(bs, HeapSpec.Total(size), |bs|) >= 0
    && ptr == bs[H.BestUpTo(bs, HeapSpec.Total(size), |bs|)].addr + HeapSpec.HEADER
  }

  /** The file as read, if it is long enough for a header. */
  function Loadable(r: Option<seq<u8>>): (p: Option<seq<u8>>) {
    if r.Some? && |r.value| >= EHDR_SIZE then r else None
  }

  /** Looks the file up and reads it into a buffer; without a file of acceptable size, or without room, there is no buffer. */
  method Fetch(fs: FileSystem, heap: Heap, name: seq<u8>) returns (ptr: nat, r: Option<seq<u8>>, ghost size: u32)
    requires fs.Valid() && heap.Valid() && Terminated(name)
    modifies heap, heap.mem
    ensures heap.Valid() && forall b :: b in H.Live(old(heap.blocks)) ==> SamePayload(old(heap.mem[..]), heap.mem[..], b)
    ensures ptr == NULL ==> heap.blocks == old(heap.blocks) && r == None
    ensures ptr != NULL ==> Buffered(old(heap.blocks), size, ptr, heap.blocks)
    ensures Loadable(r) == Program(fs.dev.blocks, Str(name), old(heap.blocks))
  {
    hide DiskOk, View, Str, Terminated, HeapSpec.Total, Content;
    hide HeapSpec.Tiles, HeapSpec.Coalesced, Headers, H.BestUpTo, SamePayload, H.Owner, H.Live, Entries, Find, NodeAt;
    ghost var bs := heap.blocks;
    size := 0;
    LiveInHeap(bs, heap.mem[..]);
    StatSize(fs.dev.blocks, Str(name));
    FsProtocol.FsOkUsable(fs.State(), Str(name));
    var index, e := fs.FindEntry(name);
    if index >= FS_MAX_ENTRIES || e.size == 0 || e.size > MAX_FILE_SIZE {
      return NULL, None, size;
    }
    size := e.size;
    ptr := heap.Kmalloc(e.size);
    if ptr == NULL {
      return NULL, None, size;
    }
    r := fs.ReadFile(name, e.size);
  }

  /** Without a program nothing changes; with one, the load decides. */
  ghost predicate ExecEnds(program: Option<seq<u8>>, k0: Kernel, argv: seq<seq<u8>>, i: nat, stack: seq<u8>, leak: set<nat>,
                           k: Kernel, enterUsermode: u32) {
    match program
    case None => i == MAX_TASKS && k == k0 && leak == {}
    case Some(file) => WellFormed(file) && LoadEnds(k0, file, argv, i, stack, leak, k, enterUsermode)
  }

  /** Starts the program called `name`; the heap is as before whatever happens. */
  method Exec(tm: TaskManager, fs: FileSystem, heap: Heap, name: seq<u8>, argv: seq<seq<u8>>)
    returns (i: nat, ghost stack: seq<u8>, ghost leak: set<nat>)
    requires tm.Valid() && fs.Valid() && heap.Valid() && Terminated(name)
    requires Placeable(Strs(argv)) && forall k :: 0 <= k < |argv| ==> Terminated(argv[k])
    requires forall bytes :: Lookup(fs.dev.blocks, Str(name)) == Some(File(bytes)) ==> WellFormed(bytes)
    modifies tm, tm.queue, tm.mmu, tm.mmu.pmm, tm.mmu.pmm.bitmap, heap, heap.mem
    ensures tm.Valid() && tm.base == old(tm.base) + leak && heap.Valid() && heap.blocks == old(heap.blocks)
    ensures forall b :: b in H.Live(heap.blocks) ==> SamePayload(old(heap.mem[..]), heap.mem[..], b)
    ensures ExecEnds(Program(fs.dev.blocks, Str(name), old(heap.blocks)), old(tm.K()), argv, i, stack, leak, tm.K(), tm.enterUsermode)
  {
    hide DiskOk, View, Str, Terminated, WellFormed, LoadEnds, HeapSpec.Total, Content, Placeable;
    hide HeapSpec.Tiles, HeapSpec.Coalesced, Headers, H.BestUpTo, SamePayload, H.Owner, H.Live, Program, Lookup, Buffered;
    hide TaskManager.Valid, TaskManager.K, Started;
    stack, leak := Zeros(4096), {};
    ghost var bs, m0 := heap.blocks, heap.mem[..];
    assert tm.base + {} == tm.base;
    ProgramIsFile(fs.dev.blocks, Str(name), bs);
    var ptr, r;
    ghost var size;
    ptr, r, size := Fetch(fs, heap, name);
    i := MAX_TASKS;
    if ptr == NULL {
      return;
    }
    if Loadable(r).Some? {
      i, stack, leak := Load(tm, r.value, argv);
    }
    FreeBuffer(heap, ptr, bs, size, m0);
  }

  /** Frees the buffer: the blocks are those from before it was taken. */
  method FreeBuffer(heap: Heap, ptr: nat, ghost bs: seq<HeapSpec.Block>, ghost size: u32, ghost m0: seq<u32>)
    requires heap.Valid() && HeapSpec.Layout(bs) && Buffered(bs, size, ptr, heap.blocks)
    requires forall b :: b in H.Live(bs) ==> SamePayload(m0, heap.mem[..], b)
    modifies heap, heap.mem
    ensures heap.Valid() && heap.blocks == bs && forall b :: b in H.Live(bs) ==> SamePayload(m0, heap.mem[..], b)
  {
    hide HeapSpec.Tiles, HeapSpec.Coalesced, Headers, H.BestUpTo, SamePayload, H.Owner, H.Live, HeapSpec.Total;
    ghost var m1 := heap.mem[..];
    H.CallUndoesCall(bs, size);
    heap.Kfree(ptr);
    BufferGone(bs, size, m0, m1, heap.mem[..]);
  }

  lemma ProgramIsFile(disk: Disk, name: Name, bs: seq<HeapSpec.Block>)
    ensures Program(disk, name, bs).Some? ==> Lookup(disk, name) == Some(File(Program(disk, name, bs).value))
  {
  }
}
