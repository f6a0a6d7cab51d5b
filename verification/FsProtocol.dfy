/**
 SimpleFS calls as sequences of atomic block writes, and what a mount shows
 after any prefix of them.
 */
module FsProtocol {
  import opened Machine
  import opened FsLayout
  import opened FsSpec

  datatype Fs = Fs(disk: Disk, sb: DiskSuperblock)

  /** The superblock in memory and the one on disk agree on everything but the free count. */
  predicate SbAgrees(sb: DiskSuperblock, disk: Disk)
    requires |disk| > 0
  {
    sb.(free := 0) == DecodeSuperblock(disk[0]).(free := 0)
  }

  /** The superblock in memory fits the disk, whatever the directory holds and whether or not block 0 agrees. */
  predicate Usable(s: Fs) {
    DATA_START <= |s.disk| < TWO_32 && SbOk(s.sb, |s.disk|)
  }

  ghost predicate FsOk(s: Fs) {
    DiskOk(s.disk) && SbAgrees(s.sb, s.disk)
  }

  lemma FsOkUsable(s: Fs, n: Name)
    requires FsOk(s)
    ensures Usable(s) && Comparable(Entries(s.disk), n)
  {
  }

  // ----- Superblock writes

  lemma SuperblockWrite(disk: Disk, sb: DiskSuperblock)
    requires DiskOk(disk) && SbAgrees(sb, disk)
    ensures var d := Apply(disk, [Write(0, EncodeSuperblock(sb))]);
            && DiskOk(d) && Entries(d) == Entries(disk) && Abs(d) == Abs(disk)
            && DecodeSuperblock(d[0]) == sb
            && (forall b: nat :: DataBlock(d, b) == DataBlock(disk, b))
  {
    hide EncodeSuperblock, DecodeSuperblock, Find, NodeAt, EntryAt;
    var x := Write(0, EncodeSuperblock(sb));
    ApplyOne(disk, [], x);
    assert [] + [x] == [x];
    var d := Apply(disk, [x]);
    SuperblockRoundTrip(sb);
    EntriesFrame(disk, d);
    forall m ensures View(d, m) == View(disk, m) {
      ViewFrame(disk, d, m);
    }
    AbsEqual(d, Abs(disk));
  }

  // ----- Crash atomicity of fs_write_file

  lemma FlipView(disk: Disk, sb: DiskSuperblock, n: Name, slot: nat, start: u16, data: seq<u8>, m: Name)
    requires CanWrite(disk, sb, n, slot, start, data)
    ensures var e := Rewritten(Entries(disk)[slot], start, |data|);
            var d := Apply(Apply(disk, DataWrites(start, data)), [EntryWrite(disk, slot, e)]);
            View(d, m) == if m == n then Some(File(data)) else View(disk, m)
  {
    var e := Rewritten(Entries(disk)[slot], start, |data|);
    DirectoryFlip(disk, sb, n, slot, start, data);
    var d := Apply(Apply(disk, DataWrites(start, data)), [EntryWrite(disk, slot, e)]);
    ViewAfterFlip(disk, d, n, slot, e, data, m);
  }

  lemma FlipAbs(disk: Disk, sb: DiskSuperblock, n: Name, slot: nat, start: u16, data: seq<u8>)
    requires CanWrite(disk, sb, n, slot, start, data)
    ensures var e := Rewritten(Entries(disk)[slot], start, |data|);
            var d := Apply(disk, DataWrites(start, data) + [EntryWrite(disk, slot, e)]);
            && DiskOk(d) && Entries(d) == Entries(disk)[slot := e] && d[0] == disk[0]
            && Abs(d) == Abs(disk)[n := File(data)]
  {
    var dw := DataWrites(start, data);
    var x := EntryWrite(disk, slot, Rewritten(Entries(disk)[slot], start, |data|));
    ApplyConcat(disk, dw, [x]);
    DirectoryFlip(disk, sb, n, slot, start, data);
    var d := Apply(Apply(disk, dw), [x]);
    forall m ensures View(d, m) == if m == n then Some(File(data)) else View(disk, m) {
      FlipView(disk, sb, n, slot, start, data, m);
    }
    AbsEqual(d, Abs(disk)[n := File(data)]);
  }

  /**
   After any prefix of the block writes of `fs_write_file`, a mount shows every
   other name unchanged and the target either with all its old bytes or with all
   its new bytes; the switch is the directory write. Only the free count may lag.
   */
  lemma CrashAtomicity(disk: Disk, sb: DiskSuperblock, n: Name, slot: nat, start: u16, data: seq<u8>, k: nat)
    requires CanWrite(disk, sb, n, slot, start, data) && SbAgrees(sb, disk)
    requires k <= |WritePlan(disk, sb, slot, start, data)|
    ensures var d := Apply(disk, WritePlan(disk, sb, slot, start, data)[..k]);
            && DiskOk(d) && SbAgrees(sb, d)
            && Abs(d) == (if k <= Blocks(|data|) then Abs(disk) else Abs(disk)[n := File(data)])
            && (k <= Blocks(|data|) ==> Entries(d) == Entries(disk))
            && (k > Blocks(|data|) ==> Entries(d) == Entries(disk)[slot := Rewritten(Entries(disk)[slot], start, |data|)])
            && (k <= Blocks(|data|) + 1 ==> d[0] == disk[0])
            && (k == Blocks(|data|) + 2 ==> DecodeSuperblock(d[0]).free == Recount(Entries(d), |disk|))
  {
    var w := WritePlan(disk, sb, slot, start, data);
    var nb := Blocks(|data|);
    PlanPrefixes(disk, sb, slot, start, data, k);
    if k <= nb {
      forall m ensures View(Apply(disk, w[..k]), m) == View(disk, m) {
        CrashInDataPhase(disk, sb, n, slot, start, data, k, m);
      }
      CrashInDataPhase(disk, sb, n, slot, start, data, k, n);
      AbsEqual(Apply(disk, w[..k]), Abs(disk));
    } else {
      FlipAbs(disk, sb, n, slot, start, data);
      var d := Apply(disk, w[..nb + 1]);
      if k == nb + 2 {
        ApplyConcat(disk, w[..nb + 1], [w[nb + 1]]);
        SuperblockWrite(d, sb.(free := Recount(Entries(d), sb.total)));
      }
    }
  }
}
