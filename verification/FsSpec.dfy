/**
 What a SimpleFS disk means: the abstract map from names to nodes, the
 invariant of every reachable disk, and the block writes each call issues.
 */
module FsSpec {
  import opened Machine
  import opened CString
  import opened FsLayout

  datatype Option<T> = None | Some(value: T)

  datatype Node = Dir | File(bytes: seq<u8>)

  const MAX_FILE: u32 := 0xFFFF_FE00
  const BITMAP_BLOCKS: nat := 1024

  predicate Used(e: DirEntry) {
    e.kind != TYPE_FREE
  }

  /** The name can be compared with the entries' without leaving their name fields. */
  predicate Comparable(es: seq<DirEntry>, n: Name) {
    |n| <= FS_NAME_MAX || forall i :: 0 <= i < |es| && Used(es[i]) ==> Terminated(es[i].name)
  }

  predicate Named(e: DirEntry, n: Name) {
    Used(e) && Str(e.name) == n
  }

  /** Data blocks `fs_alloc_blocks` can hand out on a disk of `total` blocks. */
  function Limit(total: nat): (limit: nat)
    requires total >= DATA_START
  {
    if total - DATA_START < BITMAP_BLOCKS then total - DATA_START else BITMAP_BLOCKS
  }

  predicate EntryOk(e: DirEntry, limit: nat) {
    && (e.kind == TYPE_FILE || e.kind == TYPE_DIR)
    && Terminated(e.name) && Str(e.name) != []
    && (e.kind == TYPE_FILE ==> e.size <= MAX_FILE)
    && (e.kind == TYPE_FILE && e.size > 0 ==> e.start + Blocks(e.size) <= limit)
  }

  ghost predicate DirOk(es: seq<DirEntry>, limit: nat) {
    && |es| == FS_MAX_ENTRIES
    && (forall i :: 0 <= i < |es| && Used(es[i]) ==> EntryOk(es[i], limit))
    && (forall i, j :: 0 <= i < j < |es| && Used(es[i]) && Used(es[j]) ==>
          Str(es[i].name) != Str(es[j].name))
    && (forall i, j, b: nat :: 0 <= i < j < |es| && Covers(es[i], b) ==> !Covers(es[j], b))
  }

  predicate SbOk(sb: DiskSuperblock, total: nat) {
    && sb.magic == FS_MAGIC && sb.total == total
    && sb.dirStart == DIR_START && sb.dataStart == DATA_START
  }

  /** The invariant of the disk itself: it mounts, and its directory is consistent. */
  ghost predicate DiskOk(disk: Disk) {
    && DATA_START <= |disk| < TWO_32
    && SbOk(DecodeSuperblock(disk[0]), |disk|)
    && DirOk(Entries(disk), Limit(|disk|))
  }

  /** Index of the first entry called `n`, or `|es|`. */
  function Find(es: seq<DirEntry>, n: Name): (i: nat)
    ensures i <= |es|
    ensures i < |es| ==> Named(es[i], n)
    ensures forall j :: 0 <= j < i ==> !Named(es[j], n)
  {
    if es == [] then 0
    else if Named(es[0], n) then 0
    else
      var r := Find(es[1..], n);
      assert forall j :: 0 < j < 1 + r ==> es[j] == es[1..][j - 1];
      1 + r
  }

  function NodeAt(disk: Disk, e: DirEntry): (node: Node) {
    if e.kind == TYPE_DIR then Dir else File(Content(disk, e))
  }

  /** What a mount of `disk` shows under the name `n`. */
  function View(disk: Disk, n: Name): (r: Option<Node>)
    requires |disk| >= DATA_START
  {
    var es := Entries(disk);
    var i := Find(es, n);
    if i == |es| then None else Some(NodeAt(disk, es[i]))
  }

  function Names(es: seq<DirEntry>): (s: set<Name>)
    ensures forall n :: n in s <==> Find(es, n) < |es|
  {
    var s := set i | 0 <= i < |es| && Used(es[i]) :: Str(es[i].name);
    assert forall i :: 0 <= i < |es| && Used(es[i]) ==> Named(es[i], Str(es[i].name));
    s
  }

  /** The abstract file system a disk stands for. */
  function Abs(disk: Disk): (m: map<Name, Node>)
    requires |disk| >= DATA_START
    ensures forall n :: n in m <==> View(disk, n).Some?
    ensures forall n :: n in m ==> m[n] == View(disk, n).value
  {
    map n | n in Names(Entries(disk)) :: View(disk, n).value
  }

  lemma AbsEqual(d1: Disk, m: map<Name, Node>)
    requires |d1| >= DATA_START
    requires forall n :: n in m ==> View(d1, n) == Some(m[n])
    requires forall n :: n !in m ==> View(d1, n) == None
    ensures Abs(d1) == m
  {
    hide Abs, View;
    assert forall n :: n in Abs(d1) <==> n in m;
    assert forall n :: n in m ==> Abs(d1)[n] == m[n];
  }

  /** In a consistent directory a name determines its slot. */
  lemma FindIs(es: seq<DirEntry>, limit: nat, n: Name, i: nat)
    requires DirOk(es, limit) && i < |es| && Named(es[i], n)
    ensures Find(es, n) == i
  {
    assert Find(es, n) <= i;
  }

  /** The two disks agree on every data block some entry of `es` covers. */
  ghost predicate SameExtents(d1: Disk, d2: Disk, es: seq<DirEntry>) {
    forall b: nat, i :: 0 <= i < |es| && Covers(es[i], b) ==> DataBlock(d1, b) == DataBlock(d2, b)
  }

  lemma ViewFrame(d1: Disk, d2: Disk, n: Name)
    requires |d1| >= DATA_START && |d2| >= DATA_START
    requires Entries(d1) == Entries(d2)
    requires SameExtents(d1, d2, Entries(d1))
    requires KindsOk(Entries(d1))
    ensures View(d1, n) == View(d2, n)
  {
    KeptContent(d1, d2, Entries(d1), Find(Entries(d1), n));
  }

  // ----- Writing a file

  /** No entry covers any of the `count` data blocks from `start` on. */
  ghost predicate FreeRun(es: seq<DirEntry>, start: nat, count: nat) {
    forall i, b: nat :: 0 <= i < |es| && start <= b < start + count ==> !Covers(es[i], b)
  }

  /** The lowest run of `count` free blocks below `limit`. */
  ghost predicate FirstFit(es: seq<DirEntry>, limit: nat, count: nat, start: nat) {
    && start + count <= limit && FreeRun(es, start, count)
    && forall s: nat :: s < start ==> !FreeRun(es, s, count)
  }

  ghost predicate Fits(es: seq<DirEntry>, limit: nat, count: nat) {
    exists s: nat :: s + count <= limit && FreeRun(es, s, count)
  }

  /** Bytes of the `i`-th block of a file image, zero-filled at the end. */
  function Chunk(data: seq<u8>, i: nat): (b: Block)
    requires 512 * i <= |data|
  {
    if 512 * i + 512 <= |data| then data[512 * i..512 * i + 512]
    else data[512 * i..] + Zeros(512 - (|data| - 512 * i))
  }

  /** The block images of a file of `|data|` bytes. */
  function Chunks(data: seq<u8>): (c: seq<Block>)
    requires |data| <= MAX_FILE
    ensures |c| == Blocks(|data|)
    ensures forall i :: 0 <= i < |c| ==> 512 * i < |data| && c[i] == Chunk(data, i)
  {
    seq(Blocks(|data|), i requires 0 <= i < Blocks(|data|) => Chunk(data, i))
  }

  /** Writing `blocks` to consecutive data blocks from `start` on. */
  function RunOfWrites(start: nat, blocks: seq<Block>): (w: seq<Write>)
    ensures |w| == |blocks|
    ensures forall i :: 0 <= i < |w| ==> w[i] == Write(DATA_START + start + i, blocks[i])
  {
    seq(|blocks|, i requires 0 <= i < |blocks| => Write(DATA_START + start + i, blocks[i]))
  }

  /** The image of `data` is on the disk from data block `start` on. */
  ghost predicate Stored(d: Disk, start: nat, data: seq<u8>)
    requires |data| <= MAX_FILE
  {
    forall i :: 0 <= i < Blocks(|data|) ==> DataBlock(d, start + i) == Chunks(data)[i]
  }

  function DataWrites(start: nat, data: seq<u8>): (w: seq<Write>)
    requires |data| <= MAX_FILE
    ensures |w| == Blocks(|data|)
  {
    RunOfWrites(start, Chunks(data))
  }

  /** Sum of the blocks of all non-empty files, as `fs_write_file` recounts it. */
  function UsedBlocks(es: seq<DirEntry>): (n: nat) {
    if es == [] then 0
    else
      var e := es[|es| - 1];
      UsedBlocks(es[..|es| - 1]) + FileBlocks(e)
  }

  function FileBlocks(e: DirEntry): (n: nat) {
    if e.kind == TYPE_FILE && e.size > 0 then Blocks(e.size) else 0
  }

  function Recount(es: seq<DirEntry>, total: u32): (free: u32)
    requires total >= DATA_START
  {
    var used := Wrap32(UsedBlocks(es));
    if total - DATA_START > used then total - DATA_START - used else 0
  }

  function Rewritten(e: DirEntry, start: u16, size: u32): (r: DirEntry) {
    e.(start := start, size := size)
  }

  /** Everything `fs_write_file` writes: data blocks, the directory block, the superblock. */
  function WritePlan(disk: Disk, sb: DiskSuperblock, slot: nat, start: u16, data: seq<u8>): (w: seq<Write>)
    requires |disk| >= DATA_START && sb.total >= DATA_START
    requires slot < FS_MAX_ENTRIES && |data| <= MAX_FILE
    ensures |w| == Blocks(|data|) + 2
  {
    var e := Rewritten(Entries(disk)[slot], start, |data|);
    var free := Recount(Entries(disk)[slot := e], sb.total);
    DataWrites(start, data)
    + [EntryWrite(disk, slot, e), Write(0, EncodeSuperblock(sb.(free := free)))]
  }

  /** The side conditions `fs_write_file` has established when it issues its first write. */
  ghost predicate CanWrite(disk: Disk, sb: DiskSuperblock, n: Name, slot: nat, start: u16, data: seq<u8>) {
    && DiskOk(disk) && SbOk(sb, |disk|) && |data| <= MAX_FILE
    && slot == Find(Entries(disk), n) < FS_MAX_ENTRIES && Entries(disk)[slot].kind == TYPE_FILE
    && (data != [] ==> start + Blocks(|data|) <= Limit(|disk|))
    && FreeRun(Entries(disk), start, Blocks(|data|))
  }

  // ----- The three phases of a write

  /** During the data phase only blocks of the fresh extent change. */
  lemma {:induction false} DataPhase(disk: Disk, start: nat, blocks: seq<Block>, k: nat)
    requires k <= |blocks| && DATA_START + start + |blocks| <= |disk|
    ensures var d := Apply(disk, RunOfWrites(start, blocks)[..k]);
            && (forall b :: 0 <= b < DATA_START ==> d[b] == disk[b])
            && (forall b: nat :: !(start <= b < start + k) ==> DataBlock(d, b) == DataBlock(disk, b))
            && (forall i :: 0 <= i < k ==> DataBlock(d, start + i) == blocks[i])
  {
    var w := RunOfWrites(start, blocks);
    if k > 0 {
      DataPhase(disk, start, blocks, k - 1);
      assert w[..k] == w[..k - 1] + [w[k - 1]];
      ApplyOne(disk, w[..k - 1], w[k - 1]);
    }
  }

  lemma ChunkIsSlice(data: seq<u8>, i: nat)
    requires 512 * i <= |data|
    ensures Chunk(data, i) == (data + Zeros(512))[512 * i..512 * i + 512]
  {
  }

  /** Reading the extent back gives the data, zero-filled to a whole block. */
  lemma {:induction false} ImageReadsBack(d: Disk, start: nat, data: seq<u8>, n: nat)
    requires |data| <= MAX_FILE && n <= Blocks(|data|) && Stored(d, start, data)
    ensures Region(d, start, n) == (data + Zeros(512))[..512 * n]
  {
    hide Chunk;
    if n > 0 {
      var i := n - 1;
      ImageReadsBack(d, start, data, i);
      assert DataBlock(d, start + i) == Chunks(data)[i] == Chunk(data, i);
      ChunkIsSlice(data, i);
      var x := data + Zeros(512);
      assert x[..512 * n] == x[..512 * i] + x[512 * i..512 * i + 512];
    }
  }

  lemma DirectoryKept(disk: Disk, sb: DiskSuperblock, n: Name, slot: nat, start: u16, data: seq<u8>)
    requires CanWrite(disk, sb, n, slot, start, data)
    ensures var es := Entries(disk);
            DirOk(es[slot := Rewritten(es[slot], start, |data|)], Limit(|disk|))
  {
    var es := Entries(disk);
    var e := Rewritten(es[slot], start, |data|);
    forall b: nat | Covers(e, b)
      ensures forall i :: 0 <= i < |es| ==> !Covers(es[i], b)
    {
    }
  }

  /** Before the directory block is rewritten, a mount sees the old file system. */
  lemma CrashInDataPhase(disk: Disk, sb: DiskSuperblock, n: Name, slot: nat, start: u16, data: seq<u8>, k: nat, m: Name)
    requires CanWrite(disk, sb, n, slot, start, data) && k <= Blocks(|data|)
    ensures var d := Apply(disk, DataWrites(start, data)[..k]);
            DiskOk(d) && Entries(d) == Entries(disk) && d[0] == disk[0] && View(d, m) == View(disk, m)
  {
    var d := Apply(disk, DataWrites(start, data)[..k]);
    if data == [] {
      assert DataWrites(start, data)[..k] == [];
    } else {
      DataPhase(disk, start, Chunks(data), k);
      EntriesFrame(disk, d);
      ViewFrame(disk, d, m);
    }
  }

  lemma PlanPrefixes(disk: Disk, sb: DiskSuperblock, slot: nat, start: u16, data: seq<u8>, k: nat)
    requires |disk| >= DATA_START && sb.total >= DATA_START
    requires slot < FS_MAX_ENTRIES && |data| <= MAX_FILE
    ensures var w := WritePlan(disk, sb, slot, start, data);
            var dw := DataWrites(start, data);
            var nb := Blocks(|data|);
            && (k <= nb ==> w[..k] == dw[..k])
            && w[..nb + 1] == dw + [w[nb]]
            && w[..nb + 2] == dw + [w[nb]] + [w[nb + 1]]
  {
  }

  /** The disk right after the data phase: fresh extent filled, everything else as before. */
  lemma DataDone(disk: Disk, sb: DiskSuperblock, n: Name, slot: nat, start: u16, data: seq<u8>)
    requires CanWrite(disk, sb, n, slot, start, data)
    ensures var d := Apply(disk, DataWrites(start, data));
            && d[0] == disk[0] && d[1] == disk[1] && d[2] == disk[2]
            && Stored(d, start, data) && SameExtents(disk, d, Entries(disk))
  {
    var dw := DataWrites(start, data);
    if data == [] {
      assert dw == [];
    } else {
      assert dw[..Blocks(|data|)] == dw;
      DataPhase(disk, start, Chunks(data), Blocks(|data|));
    }
  }

  /** The directory write replaces one entry and keeps the disk consistent. */
  lemma DirectoryFlip(disk: Disk, sb: DiskSuperblock, n: Name, slot: nat, start: u16, data: seq<u8>)
    requires CanWrite(disk, sb, n, slot, start, data)
    ensures var es := Entries(disk);
            var e := Rewritten(es[slot], start, |data|);
            var d1 := Apply(disk, DataWrites(start, data));
            var d := Apply(d1, [EntryWrite(disk, slot, e)]);
            && DiskOk(d) && Entries(d) == es[slot := e] && d[0] == disk[0]
            && Stored(d, start, data) && SameExtents(disk, d, es)
  {
    var e := Rewritten(Entries(disk)[slot], start, |data|);
    DataDone(disk, sb, n, slot, start, data);
    var d1 := Apply(disk, DataWrites(start, data));
    EntriesFrame(disk, d1);
    assert EntryWrite(disk, slot, e) == EntryWrite(d1, slot, e);
    EntryWriteEffect(d1, slot, e);
    assert forall b: nat :: DataBlock(Apply(d1, [EntryWrite(d1, slot, e)]), b) == DataBlock(d1, b);
    DirectoryKept(disk, sb, n, slot, start, data);
  }

  predicate KindsOk(es: seq<DirEntry>) {
    forall i :: 0 <= i < |es| && Used(es[i]) ==> es[i].kind == TYPE_FILE || es[i].kind == TYPE_DIR
  }

  /** Once the directory points at the fresh extent, a mount sees the new bytes and every other name unchanged. */
  lemma ViewAfterFlip(disk: Disk, d: Disk, n: Name, slot: nat, e: DirEntry, data: seq<u8>, m: Name)
    requires |disk| >= DATA_START && |d| >= DATA_START && |data| <= MAX_FILE
    requires slot == Find(Entries(disk), n) < FS_MAX_ENTRIES && KindsOk(Entries(disk))
    requires Entries(d) == Entries(disk)[slot := e]
    requires Named(e, n) && e.kind == TYPE_FILE && e.size == |data|
    requires Stored(d, e.start, data) && SameExtents(disk, d, Entries(disk))
    ensures View(d, m) == if m == n then Some(File(data)) else View(disk, m)
  {
    hide Find, EntryAt, Content, Str;
    var es := Entries(disk);
    FindAfterUpdate(es, n, slot, e, m);
    if m == n {
      WrittenContent(d, e, data);
    } else {
      KeptContent(disk, d, es, Find(es, m));
    }
  }

  lemma FindAfterUpdate(es: seq<DirEntry>, n: Name, slot: nat, e: DirEntry, m: Name)
    requires slot == Find(es, n) < |es| && Named(e, n)
    ensures Find(es[slot := e], m) == Find(es, m)
  {
    var i, j := Find(es[slot := e], m), Find(es, m);
    assert i < |es| ==> Named(es[i], m);
    assert j < |es| ==> Named(es[slot := e][j], m);
  }

  lemma KeptContent(d1: Disk, d2: Disk, es: seq<DirEntry>, i: nat)
    requires i < |es| && Used(es[i]) ==> es[i].kind == TYPE_FILE || es[i].kind == TYPE_DIR
    requires SameExtents(d1, d2, es)
    ensures i < |es| && Used(es[i]) ==> NodeAt(d1, es[i]) == NodeAt(d2, es[i])
  {
    if i < |es| && es[i].kind == TYPE_FILE {
      ContentFrame(d1, d2, es[i]);
    }
  }

  lemma WrittenContent(d: Disk, e: DirEntry, data: seq<u8>)
    requires |data| <= MAX_FILE && e.size == |data|
    requires Stored(d, e.start, data)
    ensures Content(d, e) == data
  {
    var nb := Blocks(|data|);
    if data != [] {
      ImageReadsBack(d, e.start, data, nb);
      assert (data + Zeros(512))[..512 * nb][..|data|] == data;
    }
  }

  lemma FindSame(es: seq<DirEntry>, slot: nat, e: DirEntry, m: Name)
    requires slot < |es|
    requires !Named(es[slot], m) && !Named(e, m)
    ensures Find(es[slot := e], m) == Find(es, m)
  {
    var i, j := Find(es[slot := e], m), Find(es, m);
    assert i < |es| ==> Named(es[i], m);
    assert j < |es| ==> Named(es[slot := e][j], m);
  }
}
