/**
 Two-level page tables (Intel SDM Vol. 3A, section 4.3) living in frames of
 physical memory, and the paging operations on them.
 */
module PagingSpec {
  import opened Machine
  import opened Pmm

  const ENTRIES: nat := 1024
  const KERNEL_PDES: nat := 4

  const USER_STACK_VIRT: u32 := 0xBFFF_F000
  const USER_STACK_TOP: u32 := 0xC000_0000

  /** A directory or table entry: a 20-bit frame number and the P, R/W and U/S flags. */
  datatype Entry = Entry(frame: nat, present: bool, writable: bool, user: bool)

  const EMPTY: Entry := Entry(0, false, false, false)

  datatype RawFrame = Table(entries: seq<Entry>) | Data(bytes: seq<u8>)

  /** The contents of a 4 KB frame, as a page table (or directory) or as plain bytes. */
  type Frame = f: RawFrame | (f.Table? ==> |f.entries| == 1024) && (f.Data? ==> |f.bytes| == 4096)
    witness Data(seq(4096, _ => 0))

  type Phys = seq<Frame>

  function ZeroTable(): (f: Frame)
    ensures f.Table? && forall i :: 0 <= i < 1024 ==> f.entries[i] == EMPTY
  {
    Table(seq(1024, _ => EMPTY))
  }

  function ZeroPage(): (f: Frame)
    ensures f.Data? && f.bytes == Zeros(4096)
  {
    Data(Zeros(4096))
  }

  predicate IsTable(mem: Phys, f: nat) {
    f < |mem| && mem[f].Table?
  }

  function At(mem: Phys, f: nat, i: nat): (e: Entry)
    requires IsTable(mem, f) && i < ENTRIES
  {
    mem[f].entries[i]
  }

  function Put(mem: Phys, f: nat, i: nat, e: Entry): (r: Phys)
    requires IsTable(mem, f) && i < ENTRIES
    ensures |r| == |mem| && IsTable(r, f)
    ensures forall g :: 0 <= g < |mem| && g != f ==> r[g] == mem[g]
    ensures forall j: nat :: j < ENTRIES ==> At(r, f, j) == if j == i then e else At(mem, f, j)
  {
    mem[f := Table(mem[f].entries[i := e])]
  }

  // ----- Address translation

  function PdIndex(virt: u32): (i: nat)
    ensures i < ENTRIES
  {
    virt / 0x1000 / 1024
  }

  function PtIndex(virt: u32): (i: nat)
    ensures i < ENTRIES
  {
    virt / 0x1000 % 1024
  }

  /** The two indices identify the page of an address. */
  lemma PageIndices(v: u32, w: u32)
    ensures PdIndex(v) == PdIndex(w) && PtIndex(v) == PtIndex(w) <==> v / 0x1000 == w / 0x1000
  {
  }

  /** The page-table entry the hardware reaches for directory slot `i` and table slot `j`. */
  function Walk(mem: Phys, dir: nat, i: nat, j: nat): (e: Entry)
    requires i < ENTRIES && j < ENTRIES
  {
    if IsTable(mem, dir) && At(mem, dir, i).present && IsTable(mem, At(mem, dir, i).frame)
    then At(mem, At(mem, dir, i).frame, j)
    else EMPTY
  }

  /** Physical address of `virt`, or 0 if it is not mapped. */
  function Translate(mem: Phys, dir: nat, virt: u32): (phys: nat) {
    var e := Walk(mem, dir, PdIndex(virt), PtIndex(virt));
    if e.present then e.frame * 4096 + virt % 4096 else 0
  }

  /** Ring 3 may access a page when both levels are present and have U/S set (section 4.6). */
  predicate UserAccess(mem: Phys, dir: nat, i: nat, j: nat)
    requires i < ENTRIES && j < ENTRIES
  {
    var e := Walk(mem, dir, i, j);
    e.present && e.user && At(mem, dir, i).user
  }

  /** Ring 3 may write to a page when it may access it and both levels have R/W set (section 4.6). */
  predicate WriteAccess(mem: Phys, dir: nat, i: nat, j: nat)
    requires i < ENTRIES && j < ENTRIES
  {
    UserAccess(mem, dir, i, j) && Walk(mem, dir, i, j).writable && At(mem, dir, i).writable
  }

  // ----- System state

  /** Frames in use, physical memory, the kernel directory and its table pointers (0 is NULL). */
  datatype Sys = Sys(used: set<nat>, mem: Phys, kdir: nat, tables: seq<nat>)

  ghost predicate KernelOk(s: Sys) {
    && |s.mem| == TOTAL_FRAMES && |s.tables| == ENTRIES
    && Reserved() <= s.used && (forall f :: f in s.used ==> f < TOTAL_FRAMES)
    && IsTable(s.mem, s.kdir) && s.kdir in s.used && !IsReserved(s.kdir)
    && (forall i :: 0 <= i < ENTRIES ==> KernelSlotOk(s, i))
    && (forall i, j :: 0 <= i < j < ENTRIES && s.tables[i] != 0 ==> s.tables[i] != s.tables[j])
  }

  /** The software pointer and the hardware entry agree, and the table is a live kernel frame. */
  predicate KernelSlotOk(s: Sys, i: nat)
    requires |s.tables| == ENTRIES && i < ENTRIES && IsTable(s.mem, s.kdir)
  {
    var e := At(s.mem, s.kdir, i);
    && (e.present <==> s.tables[i] != 0)
    && (e.present ==> e.frame == s.tables[i] && e.writable && IsTable(s.mem, e.frame)
                      && e.frame in s.used && !IsReserved(e.frame) && e.frame != s.kdir)
  }

  function LowestFrom(used: set<nat>, k: nat): (f: nat)
    requires k <= TOTAL_FRAMES
    ensures k <= f <= TOTAL_FRAMES
    ensures f < TOTAL_FRAMES ==> f !in used
    ensures forall g: nat :: k <= g < f ==> g in used
    decreases TOTAL_FRAMES - k
  {
    if k == TOTAL_FRAMES || k !in used then k else LowestFrom(used, k + 1)
  }

  /** The lowest free frame, or TOTAL_FRAMES. */
  function Lowest(used: set<nat>): (low: nat)
    ensures low <= TOTAL_FRAMES
    ensures low < TOTAL_FRAMES ==> LowestFree(used, low)
    ensures low == TOTAL_FRAMES <==> Full(used)
  {
    LowestFrom(used, 0)
  }

  lemma LowestIs(used: set<nat>, f: nat)
    requires LowestFree(used, f)
    ensures Lowest(used) == f
  {
    var l := Lowest(used);
    assert f < l ==> f in used;
    assert l < f ==> l in used;
  }

  // ----- Mapping in any directory

  /** Overwrites frame `f` as a whole. */
  function Fill(mem: Phys, f: nat, x: Frame): (r: Phys)
    requires f < |mem|
    ensures |r| == |mem| && r[f] == x && forall g :: 0 <= g < |mem| && g != f ==> r[g] == mem[g]
  {
    mem[f := x]
  }

  /** Installs a fresh, zeroed table `t` in slot `i` of `dir`. */
  function Install(mem: Phys, dir: nat, i: nat, t: nat, u: bool): (r: Phys)
    requires IsTable(mem, dir) && i < ENTRIES && t < |mem| && t != dir
    ensures |r| == |mem| && IsTable(r, dir) && IsTable(r, t)
  {
    Put(Fill(mem, t, ZeroTable()), dir, i, Entry(t, true, true, u))
  }

  /** Propagates the user flag to an existing directory entry. */
  function Share(mem: Phys, dir: nat, i: nat, u: bool): (r: Phys)
    requires IsTable(mem, dir) && i < ENTRIES
    ensures |r| == |mem| && IsTable(r, dir)
  {
    if u then Put(mem, dir, i, At(mem, dir, i).(user := true)) else mem
  }

  /** Whether mapping in slot `i` of `dir` needs a table that cannot be had. */
  predicate OutOfTables(used: set<nat>, mem: Phys, dir: nat, i: nat)
    requires IsTable(mem, dir) && i < ENTRIES
  {
    !At(mem, dir, i).present && Full(used)
  }

  /** The frames in use and the memory after mapping `e` at (`i`, `j`) of `dir`. */
  function MapEntry(used: set<nat>, mem: Phys, dir: nat, i: nat, j: nat, e: Entry): (r: (set<nat>, Phys))
    requires IsTable(mem, dir) && i < ENTRIES && j < ENTRIES && |mem| == TOTAL_FRAMES && dir in used
    requires At(mem, dir, i).present ==> IsTable(mem, At(mem, dir, i).frame) && At(mem, dir, i).frame != dir
    ensures |r.1| == |mem|
  {
    if OutOfTables(used, mem, dir, i) then (used, mem)
    else if !At(mem, dir, i).present then
      var t := Lowest(used);
      (used + {t}, Put(Install(mem, dir, i, t, e.user), t, j, e))
    else
      (used, Put(Share(mem, dir, i, e.user), At(mem, dir, i).frame, j, e))
  }

  /** Only `dir` and the table of slot `i` are written. */
  lemma MapWrites(used: set<nat>, mem: Phys, dir: nat, i: nat, j: nat, e: Entry, g: nat)
    requires IsTable(mem, dir) && i < ENTRIES && j < ENTRIES && |mem| == TOTAL_FRAMES && dir in used
    requires At(mem, dir, i).present ==> IsTable(mem, At(mem, dir, i).frame) && At(mem, dir, i).frame != dir
    requires g < |mem| && g != dir && (At(mem, dir, i).present ==> g != At(mem, dir, i).frame)
    requires !At(mem, dir, i).present ==> g in used
    ensures MapEntry(used, mem, dir, i, j, e).1[g] == mem[g]
  {
  }

  /** What the mapping does to the directory itself. */
  lemma MapDirectory(used: set<nat>, mem: Phys, dir: nat, i: nat, j: nat, e: Entry)
    requires IsTable(mem, dir) && i < ENTRIES && j < ENTRIES && |mem| == TOTAL_FRAMES && dir in used
    requires At(mem, dir, i).present ==> IsTable(mem, At(mem, dir, i).frame) && At(mem, dir, i).frame != dir
    requires !OutOfTables(used, mem, dir, i)
    ensures var m := MapEntry(used, mem, dir, i, j, e).1;
            var t := if At(mem, dir, i).present then At(mem, dir, i).frame else Lowest(used);
            && IsTable(m, dir) && IsTable(m, t) && t != dir
            && (forall k: nat :: k < ENTRIES && k != i ==> At(m, dir, k) == At(mem, dir, k))
            && At(m, dir, i).present && At(m, dir, i).frame == t
            && (At(m, dir, i).user <==> e.user || (At(mem, dir, i).present && At(mem, dir, i).user))
            && (At(m, dir, i).writable <==> (At(mem, dir, i).present ==> At(mem, dir, i).writable))
            && (forall l: nat :: l < ENTRIES ==>
                  At(m, t, l) == if l == j then e else if At(mem, dir, i).present then At(mem, t, l) else EMPTY)
  {
  }
}
