/**
 The free-block count over runs with failing writes and crashes: which steps
 keep it exact, and which let it drift.
 */
module FsCounts {
  import opened Machine
  import opened CString
  import opened FsLayout
  import opened FsSpec
  import opened FsAccounting
  import opened FsDirectory
  import opened FsProtocol
  import opened FsRuns
  import opened FsFormat

  // ----- Sums

  /** Fewer blocks entry by entry sum to fewer blocks, and to as many only if no entry has fewer. */
  lemma {:induction false} UsedMonotone(a: seq<DirEntry>, b: seq<DirEntry>)
    requires |a| == |b| && forall i :: 0 <= i < |a| ==> FileBlocks(b[i]) <= FileBlocks(a[i])
    ensures UsedBlocks(b) <= UsedBlocks(a)
    ensures UsedBlocks(b) == UsedBlocks(a) <==> forall i :: 0 <= i < |a| ==> FileBlocks(b[i]) == FileBlocks(a[i])
  {
    if a != [] {
      var n := |a| - 1;
      UsedMonotone(a[..n], b[..n]);
      if forall i :: 0 <= i < n ==> FileBlocks(b[i]) == FileBlocks(a[i]) {
        assert forall i :: 0 <= i < n ==> FileBlocks(b[..n][i]) == FileBlocks(a[..n][i]);
      } else {
        var i :| 0 <= i < n && FileBlocks(b[i]) != FileBlocks(a[i]);
        assert FileBlocks(b[..n][i]) != FileBlocks(a[..n][i]);
      }
    }
  }

  /** None of the slots holds data blocks. */
  predicate NoBlocks(es: seq<DirEntry>, todo: seq<nat>) {
    forall i :: i in todo && i < |es| ==> FileBlocks(es[i]) == 0
  }

  /** Every victim that holds data blocks was cleared. */
  predicate AllCleared(es: seq<DirEntry>, victims: seq<nat>, done: seq<nat>) {
    forall i :: i in victims && i !in done && i < |es| ==> FileBlocks(es[i]) == 0
  }

  lemma ClearedCount(es: seq<DirEntry>, gone: seq<nat>)
    ensures UsedBlocks(Cleared(es, gone)) <= UsedBlocks(es)
    ensures UsedBlocks(Cleared(es, gone)) == UsedBlocks(es) <==> NoBlocks(es, gone)
  {
    hide UsedBlocks;
    assert FileBlocks(FREE_ENTRY) == 0;
    UsedMonotone(es, Cleared(es, gone));
  }

  /** What the victims held is what is no longer used, exactly when all of them that held any were cleared. */
  lemma VictimsCount(es: seq<DirEntry>, n: Name, done: seq<nat>)
    requires Find(es, n) < |es| && forall i :: i in done ==> i in Victims(es, n)
    ensures Freed(es, Victims(es, n)) <= UsedBlocks(es)
    ensures UsedBlocks(Cleared(es, done)) + Freed(es, Victims(es, n)) == UsedBlocks(es) <==> AllCleared(es, Victims(es, n), done)
  {
    hide UsedBlocks, Victims, Freed;
    var victims := Victims(es, n);
    FreedBlocks(es, victims);
    assert FileBlocks(FREE_ENTRY) == 0;
    UsedMonotone(Cleared(es, done), Cleared(es, victims));
    if AllCleared(es, victims, done) {
      assert forall i :: 0 <= i < |es| ==> FileBlocks(Cleared(es, done)[i]) == FileBlocks(Cleared(es, victims)[i]);
    } else {
      var i :| i in victims && i !in done && i < |es| && FileBlocks(es[i]) != 0;
      assert FileBlocks(Cleared(es, done)[i]) != FileBlocks(Cleared(es, victims)[i]);
    }
  }

  // ----- Which steps keep the count exact

  /** A write drifts only between the directory write and the flush, and then only if the file changed its block count. */
  ghost predicate WriteKeeps(s: Fs, name: Name, data: seq<u8>, reached: nat)
    requires |s.disk| >= DATA_START && |data| <= MAX_FILE
  {
    var es := Entries(s.disk);
    WriteAllowed(s, name, data) && reached == Blocks(|data|) + 1 ==> Blocks(|data|) == FileBlocks(es[Find(es, name)])
  }

  /** `reached` writes went through, `ok` that the entry itself was cleared and the call went on to the count. */
  ghost predicate DeleteKeeps(s: Fs, name: Name, done: seq<nat>, step: Step)
    requires |s.disk| >= DATA_START
  {
    var es := Entries(s.disk);
    Find(es, name) < |es| ==>
      match step
      case Returned(_, w, ok, _) =>
        if !ok then NoBlocks(es, done)
        else if |w| == |done| then NoBlocks(es, Victims(es, name))
        else AllCleared(es, Victims(es, name), done)
      case Crashed(_, w, ok, _, k) =>
        if k <= |done| then NoBlocks(es, done[..k]) else AllCleared(es, Victims(es, name), done)
  }

  /** Decided from the state before the step and from which of its writes went through. */
  ghost predicate KeepsCount(s: Fs, step: Step)
    requires |s.disk| >= DATA_START
  {
    match step.ev
    case Create(_, _) => true
    case WriteFile(name, data) =>
      |data| <= MAX_FILE && WriteKeeps(s, name, data, if step.Crashed? then step.k else |step.w|)
    case Delete(name, done) => DeleteKeeps(s, name, done, step)
  }

  lemma CreateCounts(s: Fs, step: Step)
    requires FsOk(s) && Accounted(s) && Legal(s, step) && step.ev.Create?
    ensures Accounted(Next(s, step))
  {
    hide DecodeSuperblock, DirOk, EntryAt;
    var Create(name, kind) := step.ev;
    var es := Entries(s.disk);
    var w := if step.Crashed? then step.w[..step.k] else step.w;
    if w == [] {
      assert Apply(s.disk, w) == s.disk;
    } else {
      assert w == step.w;
      CreateEffect(s.disk, name, kind);
      UsedBlocksUpdate(es, FreeSlot(es), NewEntry(name, kind));
    }
  }

  /** The directory and superblock after `k` writes of a file write, and what they sum to. */
  lemma WriteSums(s: Fs, name: Name, data: seq<u8>, start: u16, w: seq<Write>, ok: bool, sb': DiskSuperblock, k: nat)
    requires FsOk(s) && |data| <= MAX_FILE && WriteAllowed(s, name, data) && k <= |w|
    requires WriteIssuesAt(s, name, data, start, w, ok, sb')
    ensures var es := Entries(s.disk);
            var slot := Find(es, name);
            var d := Apply(s.disk, w[..k]);
            var nb := Blocks(|data|);
            && |d| == |s.disk|
            && (k <= nb ==> Entries(d) == es) && (k <= nb + 1 ==> d[0] == s.disk[0])
            && (k > nb ==> && UsedBlocks(Entries(d)) == UsedBlocks(es) - FileBlocks(es[slot]) + nb
                           && FreeExact(Entries(d), |d|, s.sb.(free := Recount(Entries(d), |d|)).free)
                           && Entries(d) == es[slot := Rewritten(es[slot], start, |data|)])
            && (k == nb + 2 ==> DecodeSuperblock(d[0]) == s.sb.(free := Recount(Entries(d), |d|)))
  {
    hide DecodeSuperblock, DirOk, EntryAt, Recount, UsedBlocks;
    var es := Entries(s.disk);
    var slot := Find(es, name);
    var plan := WritePlan(s.disk, s.sb, slot, start, data);
    AllocationIsFree(s, name, data, start);
    assert w[..k] == plan[..k];
    CrashAtomicity(s.disk, s.sb, name, slot, start, data, k);
    var d := Apply(s.disk, w[..k]);
    if k > Blocks(|data|) {
      var e := Rewritten(es[slot], start, |data|);
      UsedBlocksUpdate(es, slot, e);
      assert FileBlocks(e) == Blocks(|data|);
      RecountExact(Entries(d), |d|);
    }
  }

  lemma WriteCounts(s: Fs, step: Step)
    requires FsOk(s) && Accounted(s) && Legal(s, step) && step.ev.WriteFile?
    ensures Accounted(Next(s, step)) <==> KeepsCount(s, step)
  {
    hide DecodeSuperblock, DirOk, EntryAt, Recount, UsedBlocks, Apply, WritePlan, Allocates, Fits, Find;
    var WriteFile(name, data) := step.ev;
    var k := if step.Crashed? then step.k else |step.w|;
    if WriteAllowed(s, name, data) {
      var start :| WriteIssuesAt(s, name, data, start, step.w, step.ok, step.sb');
      WriteSums(s, name, data, start, step.w, step.ok, step.sb', k);
      assert step.w[..|step.w|] == step.w;
    } else {
      NoWrites(s.disk, step.w, k);
    }
  }

  lemma NoWrites(disk: Disk, w: seq<Write>, k: nat)
    requires w == [] && k <= |w|
    ensures Apply(disk, w) == disk && Apply(disk, w[..k]) == disk
  {
    assert w[..k] == [];
  }

  lemma DeleteCounts(s: Fs, step: Step)
    requires FsOk(s) && Accounted(s) && Legal(s, step) && step.ev.Delete?
    ensures Accounted(Next(s, step)) <==> KeepsCount(s, step)
  {
    hide DecodeSuperblock, DirOk, EntryAt, Apply, Find;
    var Delete(name, done) := step.ev;
    if Find(Entries(s.disk), name) == FS_MAX_ENTRIES {
      NoWrites(s.disk, step.w, if step.Crashed? then step.k else 0);
    } else if step.Crashed? {
      DeleteCrashCounts(s, name, done, step.w, step.ok, step.sb', step.k);
    } else {
      DeleteReturnCounts(s, name, done, step.w, step.ok, step.sb');
    }
  }

  lemma DeleteReturnCounts(s: Fs, n: Name, done: seq<nat>, w: seq<Write>, ok: bool, sb': DiskSuperblock)
    requires FsOk(s) && Accounted(s) && DeleteIssues(s, n, done, w, ok, sb') && Find(Entries(s.disk), n) < FS_MAX_ENTRIES
    ensures Accounted(Fs(Apply(s.disk, w), sb')) <==> DeleteKeeps(s, n, done, Returned(Delete(n, done), w, ok, sb'))
  {
    hide DecodeSuperblock, DirOk, EntryAt, Apply, Find, UsedBlocks, Cleared, Victims, Freed;
    var es := Entries(s.disk);
    DeleteShape(s, n, done, w, ok, sb');
    ClearEffect(s.disk, done);
    ClearedCount(es, done);
    VictimsCount(es, n, done);
    NothingFreed(es, Victims(es, n));
  }

  lemma {:induction false} NothingFreed(es: seq<DirEntry>, todo: seq<nat>)
    requires forall i :: 0 <= i < |todo| ==> todo[i] < |es|
    ensures Freed(es, todo) == 0 <==> NoBlocks(es, todo)
    ensures NoBlocks(es, todo) ==> forall done :: AllCleared(es, todo, done)
  {
    if todo != [] {
      var k := |todo| - 1;
      NothingFreed(es, todo[..k]);
      assert forall i :: i in todo <==> i in todo[..k] || i == todo[k];
    }
  }

  lemma DeleteCrashCounts(s: Fs, n: Name, done: seq<nat>, w: seq<Write>, ok: bool, sb': DiskSuperblock, k: nat)
    requires FsOk(s) && Accounted(s) && DeleteIssues(s, n, done, w, ok, sb') && Find(Entries(s.disk), n) < FS_MAX_ENTRIES
    requires k <= |w|
    ensures var d := Apply(s.disk, w[..k]);
            |d| > 0 && (Accounted(Fs(d, DecodeSuperblock(d[0])))
                        <==> DeleteKeeps(s, n, done, Crashed(Delete(n, done), w, ok, sb', k)))
  {
    hide DecodeSuperblock, DirOk, EntryAt, Apply, Find, UsedBlocks, Cleared, Victims, Freed, ClearWrites;
    var es := Entries(s.disk);
    if k <= |done| {
      assert w[..k] == ClearWrites(s.disk, done)[..k];
      ClearPrefix(s.disk, done, k);
      ClearEffect(s.disk, done[..k]);
      ClearedCount(es, done[..k]);
    } else {
      assert w[..k] == w;
      DeleteShape(s, n, done, w, ok, sb');
      VictimsCount(es, n, done);
    }
  }

  /** From an exact count, a step leaves an exact count if and only if it keeps it. */
  lemma StepExact(s: Fs, step: Step)
    requires FsOk(s) && Accounted(s) && Legal(s, step)
    ensures Accounted(Next(s, step)) <==> KeepsCount(s, step)
  {
    hide Accounted, Legal, Next;
    match step.ev
    case Create(_, _) => CreateCounts(s, step);
    case WriteFile(_, _) => WriteCounts(s, step);
    case Delete(_, _) => DeleteCounts(s, step);
  }

  // ----- Runs

  lemma RunStarts(s: Fs, steps: seq<Step>)
    requires |s.disk| > 0
    ensures Run(s, steps[..0]) == s
  {
    assert steps[..0] == [];
  }

  /**
   Through a run of calls, failing writes and crashes, free_blocks plus the blocks
   of all files stays the size of the data region, in memory and on disk, if and
   only if every step keeps the count.
   */
  lemma {:induction false} RunAccounts(s: Fs, steps: seq<Step>, n: nat)
    requires FsOk(s) && Accounted(s) && LegalRun(s, steps) && n <= |steps|
    ensures (forall i :: 0 <= i <= n ==> Accounted(Run(s, steps[..i]))) <==>
              (forall i :: 0 <= i < n ==> KeepsCount(Run(s, steps[..i]), steps[i]))
  {
    hide Legal, DirOk, DecodeSuperblock, Next, Accounted, KeepsCount, Run;
    if n == 0 {
      RunStarts(s, steps);
    } else {
      RunAccounts(s, steps, n - 1);
      RunOk(s, steps, n - 1);
      RunOneMore(s, steps, n - 1);
      if Accounted(Run(s, steps[..n - 1])) {
        StepExact(Run(s, steps[..n - 1]), steps[n - 1]);
      }
    }
  }

  /** A call none of whose block writes failed keeps the count, although writes recount it and deletes adjust it. */
  lemma CleanKeeps(s: Fs, step: Step)
    requires FsOk(s) && Legal(s, step) && Clean(s, step)
    ensures KeepsCount(s, step)
  {
    hide DecodeSuperblock, DirOk, EntryAt, Apply, Find, WriteIssues, CreateIssues, Cleared, ClearWrites;
  }

  /** Whatever the count was, a write whose flush goes through makes it exact. */
  lemma WriteRepairs(s: Fs, name: Name, data: seq<u8>, w: seq<Write>, ok: bool, sb': DiskSuperblock)
    requires FsOk(s) && |data| <= MAX_FILE && WriteAllowed(s, name, data) && WriteIssues(s, name, data, w, ok, sb')
    requires |w| == Blocks(|data|) + 2
    ensures Accounted(Fs(Apply(s.disk, w), sb'))
  {
    hide DecodeSuperblock, DirOk, EntryAt, Recount, UsedBlocks, Apply, WritePlan, Allocates, Fits, Find;
    var start :| WriteIssuesAt(s, name, data, start, w, ok, sb');
    WriteSums(s, name, data, start, w, ok, sb', |w|);
    assert w[..|w|] == w;
  }

  // ----- A delete that drifts

  const DIR_D: Name := [100]
  const FILE_D_F: Name := [100, 47, 102]

  /** A file of one byte in data block 0. */
  function OneByteFile(): (e: DirEntry)
    ensures Str(e.name) == FILE_D_F && Terminated(e.name) && e.kind == TYPE_FILE && e.size == 1 && e.start == 0
  {
    var e := NewEntry(FILE_D_F, TYPE_FILE).(size := 1);
    assert e.name[3] == 0;
    StrAt(e.name, 3);
    assert e.name[..3] == FILE_D_F;
    e
  }

  function EmptyDir(): (e: DirEntry)
    ensures Str(e.name) == DIR_D && Terminated(e.name) && e.kind == TYPE_DIR
  {
    var e := NewEntry(DIR_D, TYPE_DIR);
    assert e.name[1] == 0;
    StrAt(e.name, 1);
    assert e.name[..1] == DIR_D;
    e
  }

  function DriftEntries(): (es: seq<DirEntry>)
    ensures |es| == FS_MAX_ENTRIES && es[0] == EmptyDir() && es[1] == OneByteFile()
    ensures forall i :: 2 <= i < |es| ==> es[i] == FREE_ENTRY
  {
    [EmptyDir(), OneByteFile()] + seq(30, _ => FREE_ENTRY)
  }

  /** A disk of four blocks with the directory "d" and the file "d/f" in its only data block. */
  function DriftDisk(): (disk: Disk)
    ensures |disk| == 4
  {
    var d0 := FormatTo([Zeros(512), Zeros(512), Zeros(512), Zeros(512)], 3);
    var d1 := Apply(d0, [EntryWrite(d0, 0, EmptyDir())]);
    var d2 := Apply(d1, [EntryWrite(d1, 1, OneByteFile())]);
    d2[0 := EncodeSuperblock(FormatSb(4).(free := 0))]
  }

  function DriftState(): (s: Fs)
    ensures |s.disk| == 4
  {
    Fs(DriftDisk(), FormatSb(4).(free := 0))
  }

  lemma DriftShape()
    ensures Entries(DriftDisk()) == DriftEntries() && DecodeSuperblock(DriftDisk()[0]) == FormatSb(4).(free := 0)
  {
    hide EncodeSuperblock, DecodeSuperblock, EntryAt, EntryWrite, FormatTo, Apply;
    var z := [Zeros(512), Zeros(512), Zeros(512), Zeros(512)];
    FormatEntries(z, 3);
    var d0 := FormatTo(z, 3);
    EntryWriteEffect(d0, 0, EmptyDir());
    var d1 := Apply(d0, [EntryWrite(d0, 0, EmptyDir())]);
    EntryWriteEffect(d1, 1, OneByteFile());
    var d2 := Apply(d1, [EntryWrite(d1, 1, OneByteFile())]);
    EntriesFrame(d2, DriftDisk());
    SuperblockRoundTrip(FormatSb(4).(free := 0));
    assert Entries(d2) == DriftEntries();
  }

  lemma DriftSound()
    ensures FsOk(DriftState()) && Accounted(DriftState())
  {
    hide EncodeSuperblock, DecodeSuperblock, EntryAt, DriftDisk, EmptyDir, OneByteFile;
    DriftShape();
    var es := DriftEntries();
    assert forall b: nat :: !Covers(FREE_ENTRY, b) && !Covers(es[0], b);
    assert DirOk(es, 1);
    DriftCount(es);
  }

  lemma DriftCount(es: seq<DirEntry>)
    requires es == DriftEntries()
    ensures UsedBlocks(es) == 1
  {
    hide EmptyDir, OneByteFile;
    var none := es[1 := FREE_ENTRY][0 := FREE_ENTRY];
    NothingUsed(none);
    UsedBlocksUpdate(es[1 := FREE_ENTRY], 0, FREE_ENTRY);
    UsedBlocksUpdate(es, 1, FREE_ENTRY);
  }

  lemma DriftVictims()
    ensures Find(DriftEntries(), DIR_D) == 0 && 1 in Victims(DriftEntries(), DIR_D) && 0 in Victims(DriftEntries(), DIR_D)
    ensures FileBlocks(DriftEntries()[1]) == 1
  {
    hide EmptyDir, OneByteFile;
    var es := DriftEntries();
    assert Named(es[0], DIR_D);
    assert DIR_D + [SLASH] <= FILE_D_F;
  }

  /** A delete of `n` in which only the entry itself is cleared. */
  ghost function OnlyItself(s: Fs, n: Name): (step: Step)
    requires |s.disk| >= DATA_START && Find(Entries(s.disk), n) < FS_MAX_ENTRIES
  {
    var done := [Find(Entries(s.disk), n)];
    var sb' := AfterDelete(s.sb, Entries(s.disk), n);
    Returned(Delete(n, done), ClearWrites(s.disk, done) + [Write(0, EncodeSuperblock(sb'))], true, sb')
  }

  /** Deleting "d" while the write that clears "d/f" fails: the file stays, and its block is counted as free. */
  lemma DeleteDrifts()
    ensures Find(Entries(DriftState().disk), DIR_D) < FS_MAX_ENTRIES
    ensures var s := DriftState();
            var step := OnlyItself(s, DIR_D);
            FsOk(s) && Accounted(s) && Legal(s, step) && !Accounted(Next(s, step))
  {
    hide EncodeSuperblock, DecodeSuperblock, EntryAt, DriftDisk, Find, Victims, Accounted, ClearWrites, AfterDelete;
    DriftShape();
    DriftSound();
    DriftVictims();
    StepExact(DriftState(), OnlyItself(DriftState(), DIR_D));
  }
}
