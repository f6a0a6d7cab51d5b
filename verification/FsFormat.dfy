/**
 Formatting: the writes of fs_format, and what a later mount finds when they
 were cut short.
 */
module FsFormat {
  import opened Machine
  import opened FsLayout
  import opened FsSpec
  import opened FsProtocol
  import opened FsRuns

  // ----- The writes of fs_format

  function FormatSb(total: u32): (sb: DiskSuperblock)
    requires total >= DATA_START
  {
    Superblock(FS_MAGIC, FS_VERSION, total, total - DATA_START, DIR_START, FS_DIR_BLOCKS, DATA_START, 0, Zeros(480))
  }

  /** The superblock first, then the two directory blocks. */
  function FormatPlan(total: u32): (w: seq<Write>)
    requires total >= DATA_START
    ensures |w| == 3
  {
    [Write(0, EncodeSuperblock(FormatSb(total))), Write(1, Zeros(512)), Write(2, Zeros(512))]
  }

  predicate Formattable(disk: Disk) {
    DATA_START <= |disk| < TWO_32
  }

  predicate HasMagic(disk: Disk)
    requires |disk| > 0
  {
    DecodeSuperblock(disk[0]).magic == FS_MAGIC
  }

  /** The disk after the first `k` writes of a format. */
  function FormatTo(disk: Disk, k: nat): (d: Disk)
    requires Formattable(disk) && k <= 3
    ensures |d| == |disk|
  {
    Apply(disk, FormatPlan(|disk|)[..k])
  }

  /** The old directory with the blocks already zeroed: 16 entries for each. */
  function Wiped(es: seq<DirEntry>, k: nat): (r: seq<DirEntry>)
    requires |es| == FS_MAX_ENTRIES && k <= 3
    ensures |r| == FS_MAX_ENTRIES
    ensures forall i :: 0 <= i < FS_MAX_ENTRIES ==> r[i] == if i + 16 < 16 * k then FREE_ENTRY else es[i]
  {
    seq(FS_MAX_ENTRIES, i requires 0 <= i < FS_MAX_ENTRIES => if i + 16 < 16 * k then FREE_ENTRY else es[i])
  }

  lemma ZeroEntry(o: nat)
    requires o + ENTRY_BYTES <= BLOCK_SIZE
    ensures DecodeEntry(Zeros(512)[o..o + ENTRY_BYTES]) == FREE_ENTRY
  {
    assert Zeros(512)[o..o + ENTRY_BYTES] == Zeros(32);
    assert Zeros(32)[..24] == Zeros(24);
    assert Zeros(32)[26..28] == Zeros(2) && Zeros(32)[28..32] == Zeros(4);
    assert FromLe16(Zeros(2)) == 0 && FromLe32(Zeros(4)) == 0;
  }

  lemma OneWrite(disk: Disk, w: seq<Write>, k: nat)
    requires k < |w| && w[k].at < |disk|
    ensures Apply(disk, w[..k + 1]) == Apply(disk, w[..k])[w[k].at := w[k].data]
  {
    assert w[..k + 1] == w[..k] + [w[k]];
    ApplyOne(disk, w[..k], w[k]);
  }

  lemma FormatBlocks(disk: Disk, k: nat)
    requires Formattable(disk) && k <= 3
    ensures var d := FormatTo(disk, k);
            && d[0] == (if k >= 1 then EncodeSuperblock(FormatSb(|disk|)) else disk[0])
            && d[1] == (if k >= 2 then Zeros(512) else disk[1]) && d[2] == (if k >= 3 then Zeros(512) else disk[2])
            && forall b :: DATA_START <= b < |disk| ==> d[b] == disk[b]
  {
    hide EncodeSuperblock, Apply, Zeros;
    FormatNone(disk);
    if k >= 1 {
      OneWrite(disk, FormatPlan(|disk|), 0);
    }
    if k >= 2 {
      OneWrite(disk, FormatPlan(|disk|), 1);
    }
    if k >= 3 {
      OneWrite(disk, FormatPlan(|disk|), 2);
    }
  }

  lemma FormatNone(disk: Disk)
    requires Formattable(disk)
    ensures FormatTo(disk, 0) == disk
  {
    assert FormatPlan(|disk|)[..0] == [];
  }

  /** What is left of the directory after `k` writes. */
  lemma FormatEntries(disk: Disk, k: nat)
    requires Formattable(disk) && k <= 3
    ensures var d := FormatTo(disk, k);
            && Entries(d) == Wiped(Entries(disk), k)
            && (k == 0 ==> d == disk)
            && (k >= 1 ==> DecodeSuperblock(d[0]) == FormatSb(|disk|))
  {
    hide EncodeSuperblock, DecodeSuperblock;
    FormatBlocks(disk, k);
    SuperblockRoundTrip(FormatSb(|disk|));
    var d := FormatTo(disk, k);
    forall i | 0 <= i < FS_MAX_ENTRIES ensures EntryAt(d, i) == Wiped(Entries(disk), k)[i] {
      ZeroEntry(EntryOffset(i));
    }
    FormatNone(disk);
  }

  // ----- What a mount finds

  /** A mount is sound: the disk is consistent, or has no magic number and will be formatted. */
  ghost predicate Mountable(disk: Disk) {
    Formattable(disk) && (HasMagic(disk) ==> DiskOk(disk))
  }

  /** What is left of the old directory would do as a directory. */
  ghost predicate LeftOk(disk: Disk, k: nat)
    requires Formattable(disk) && k <= 3
  {
    DirOk(Wiped(Entries(disk), k), Limit(|disk|))
  }

  /** A complete format leaves an empty directory. */
  lemma NothingLeft(disk: Disk)
    requires Formattable(disk)
    ensures LeftOk(disk, 3)
  {
    assert forall b: nat :: !Covers(FREE_ENTRY, b);
  }

  /**
   A format cut short after `k` writes, of a disk without the magic number, leaves
   a disk that mounts soundly exactly when nothing was written or the part of
   the old directory that is left happens to be consistent.
   */
  lemma FormatCrash(disk: Disk, k: nat)
    requires Formattable(disk) && !HasMagic(disk) && k <= 3
    ensures Mountable(FormatTo(disk, k)) <==> k == 0 || LeftOk(disk, k)
    ensures k == 3 ==> Mountable(FormatTo(disk, k))
  {
    hide EncodeSuperblock, DecodeSuperblock, DirOk;
    FormatEntries(disk, k);
    NothingLeft(disk);
  }

  /** A disk without the magic number whose first entry has a kind the file system does not know. */
  function StaleDisk(): (disk: Disk)
    ensures |disk| == 3 && disk[0] == Zeros(512) && disk[1] == Zeros(512)[24 := 9] && disk[2] == Zeros(512)
  {
    [Zeros(512), Zeros(512)[24 := 9], Zeros(512)]
  }

  /** Interrupted after its first write, the format of such a disk leaves garbage that the next mount accepts. */
  lemma StaleDirectory()
    ensures var disk := StaleDisk();
            && Formattable(disk) && !HasMagic(disk) && Mountable(disk)
            && HasMagic(FormatTo(disk, 1)) && !Mountable(FormatTo(disk, 1))
  {
    hide EncodeSuperblock, DirOk, FormatTo;
    var disk := StaleDisk();
    assert disk[0][0..4] == Zeros(4);
    assert FromLe32(Zeros(4)) == 0;
    FormatEntries(disk, 1);
    FormatCrash(disk, 1);
    var e := Wiped(Entries(disk), 1)[0];
    assert e == EntryAt(disk, 0) && EntryOffset(0) == 0 && EntryBlock(0) == 1;
    UnknownKind(Wiped(Entries(disk), 1), Limit(3), 0);
  }

  lemma UnknownKind(es: seq<DirEntry>, limit: nat, i: nat)
    requires i < |es| && es[i].kind > TYPE_DIR
    ensures !DirOk(es, limit)
  {
    assert Used(es[i]);
  }

  // ----- A freshly formatted disk

  lemma FormattedDisk(disk: Disk)
    requires Formattable(disk)
    ensures var d := FormatTo(disk, 3);
            FsOk(Fs(d, FormatSb(|disk|))) && Accounted(Fs(d, FormatSb(|disk|))) && Abs(d) == map[]
  {
    hide EncodeSuperblock, DecodeSuperblock;
    var d := FormatTo(disk, 3);
    FormatEntries(disk, 3);
    NothingLeft(disk);
    NothingUsed(Entries(d));
    AbsEqual(d, map[]);
  }

  lemma {:induction false} NothingUsed(es: seq<DirEntry>)
    requires forall i :: 0 <= i < |es| ==> es[i] == FREE_ENTRY
    ensures UsedBlocks(es) == 0
  {
    if es != [] {
      NothingUsed(es[..|es| - 1]);
    }
  }
}
