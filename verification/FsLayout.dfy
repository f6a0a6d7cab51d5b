/**
 On-disk layout of SimpleFS: block 0 holds the superblock, blocks 1 and 2 hold
 32 serialized directory entries, the data region starts at block 3.
 */
module FsLayout {
  import opened Machine

  const BLOCK_SIZE: nat := 512
  const FS_MAGIC: u32 := 0x41504653
  const FS_VERSION: u32 := 1
  const FS_NAME_MAX: nat := 23
  const FS_DIR_BLOCKS: nat := 2
  const FS_ENTRIES_PER_BLOCK: nat := 16
  const FS_MAX_ENTRIES: nat := 32
  const ENTRY_BYTES: nat := 32
  const DIR_START: nat := 1
  const DATA_START: nat := 3

  const TYPE_FREE: u8 := 0
  const TYPE_FILE: u8 := 1
  const TYPE_DIR: u8 := 2

  type Block = b: seq<u8> | |b| == 512 witness Zeros(512)
  type Disk = seq<Block>
  type Name = seq<u8>

  datatype Entry = Entry(name: seq<u8>, kind: u8, reserved: u8, start: u16, size: u32)

  /** A directory entry as stored: the name field is 24 bytes wide. */
  type DirEntry = e: Entry | |e.name| == 24 witness Entry(Zeros(24), 0, 0, 0, 0)

  const FREE_ENTRY: DirEntry := Entry(Zeros(24), TYPE_FREE, 0, 0, 0)

  function EncodeEntry(e: DirEntry): (b: seq<u8>)
    ensures |b| == ENTRY_BYTES
  {
    e.name + [e.kind, e.reserved] + Le16(e.start) + Le32(e.size)
  }

  function DecodeEntry(b: seq<u8>): (e: DirEntry)
    requires |b| == ENTRY_BYTES
  {
    Entry(b[..24], b[24], b[25], FromLe16(b[26..28]), FromLe32(b[28..32]))
  }

  lemma EntryRoundTrip(e: DirEntry)
    ensures DecodeEntry(EncodeEntry(e)) == e
  {
    var b := EncodeEntry(e);
    assert b[..24] == e.name;
    assert b[26..28] == Le16(e.start);
    assert b[28..32] == Le32(e.size);
    Le16RoundTrip(e.start);
    Le32RoundTrip(e.size);
  }

  /** Where the fields of an entry lie in its 32 bytes, least significant byte first. */
  lemma EntryBytes(b: seq<u8>)
    requires |b| == 32
    ensures var e := DecodeEntry(b);
            && e.name == b[..24] && e.kind == b[24] && e.start == (b[26] as int) + 0x100 * (b[27] as int)
            && e.size == (b[28] as int) + 0x100 * (b[29] as int) + 0x1_0000 * (b[30] as int) + 0x100_0000 * (b[31] as int)
  {
  }

  datatype Superblock = Superblock(magic: u32, version: u32, total: u32, free: u32,
                                   dirStart: u32, dirCount: u32, dataStart: u32,
                                   firstFree: u32, reserved: seq<u8>)

  type DiskSuperblock = s: Superblock | |s.reserved| == 480
    witness Superblock(0, 0, 0, 0, 0, 0, 0, 0, Zeros(480))

  function EncodeSuperblock(s: DiskSuperblock): (b: Block) {
    Le32(s.magic) + Le32(s.version) + Le32(s.total) + Le32(s.free)
    + Le32(s.dirStart) + Le32(s.dirCount) + Le32(s.dataStart) + Le32(s.firstFree) + s.reserved
  }

  function DecodeSuperblock(b: Block): (s: DiskSuperblock) {
    Superblock(FromLe32(b[0..4]), FromLe32(b[4..8]), FromLe32(b[8..12]), FromLe32(b[12..16]),
               FromLe32(b[16..20]), FromLe32(b[20..24]), FromLe32(b[24..28]), FromLe32(b[28..32]),
               b[32..])
  }

  lemma SuperblockRoundTrip(s: DiskSuperblock)
    ensures DecodeSuperblock(EncodeSuperblock(s)) == s
  {
    var b := EncodeSuperblock(s);
    assert b[0..4] == Le32(s.magic) && b[4..8] == Le32(s.version);
    assert b[8..12] == Le32(s.total) && b[12..16] == Le32(s.free);
    assert b[16..20] == Le32(s.dirStart) && b[20..24] == Le32(s.dirCount);
    assert b[24..28] == Le32(s.dataStart) && b[28..32] == Le32(s.firstFree);
    assert b[32..] == s.reserved;
    Le32RoundTrip(s.magic);
    Le32RoundTrip(s.version);
    Le32RoundTrip(s.total);
    Le32RoundTrip(s.free);
    Le32RoundTrip(s.dirStart);
    Le32RoundTrip(s.dirCount);
    Le32RoundTrip(s.dataStart);
    Le32RoundTrip(s.firstFree);
  }

  /** Where block 0 holds the letters SFPA and the counts of all and of free blocks. */
  lemma SuperblockBytes(b: Block)
    ensures var s := DecodeSuperblock(b);
            && (s.magic == FS_MAGIC <==> b[0..4] == [0x53, 0x46, 0x50, 0x41])
            && s.total == (b[8] as int) + 0x100 * (b[9] as int) + 0x1_0000 * (b[10] as int) + 0x100_0000 * (b[11] as int)
            && s.free == (b[12] as int) + 0x100 * (b[13] as int) + 0x1_0000 * (b[14] as int) + 0x100_0000 * (b[15] as int)
  {
    assert b[0..4] == [b[0], b[1], b[2], b[3]];
  }

  // ----- The directory region

  function EntryOffset(i: nat): (o: nat)
    requires i < FS_MAX_ENTRIES
    ensures o + ENTRY_BYTES <= BLOCK_SIZE
  {
    i % 16 * 32
  }

  function EntryBlock(i: nat): (b: nat)
    requires i < FS_MAX_ENTRIES
    ensures DIR_START <= b < DATA_START
  {
    DIR_START + i / 16
  }

  function Splice(b: Block, o: nat, bytes: seq<u8>): (r: Block)
    requires o + |bytes| <= BLOCK_SIZE
  {
    b[..o] + bytes + b[o + |bytes|..]
  }

  function EntryAt(disk: Disk, i: nat): (e: DirEntry)
    requires |disk| >= DATA_START && i < FS_MAX_ENTRIES
  {
    var o := EntryOffset(i);
    DecodeEntry(disk[EntryBlock(i)][o..o + ENTRY_BYTES])
  }

  function Entries(disk: Disk): (es: seq<DirEntry>)
    requires |disk| >= DATA_START
    ensures |es| == FS_MAX_ENTRIES
    ensures forall i :: 0 <= i < FS_MAX_ENTRIES ==> es[i] == EntryAt(disk, i)
  {
    seq(FS_MAX_ENTRIES, i requires 0 <= i < FS_MAX_ENTRIES => EntryAt(disk, i))
  }

  // ----- Block writes

  datatype Write = Write(at: nat, data: Block)

  /** The disk after the block writes `w`, each of which is atomic. */
  function Apply(disk: Disk, w: seq<Write>): (d: Disk)
    ensures |d| == |disk|
  {
    if w == [] then disk
    else
      var d := Apply(disk, w[..|w| - 1]);
      var last := w[|w| - 1];
      if last.at < |d| then d[last.at := last.data] else d
  }

  lemma ApplyOne(disk: Disk, w: seq<Write>, x: Write)
    requires x.at < |disk|
    ensures Apply(disk, w + [x]) == Apply(disk, w)[x.at := x.data]
  {
    assert (w + [x])[..|w|] == w;
  }

  lemma {:induction false} ApplyConcat(disk: Disk, v: seq<Write>, w: seq<Write>)
    ensures Apply(disk, v + w) == Apply(Apply(disk, v), w)
    decreases |w|
  {
    if w == [] {
      assert v + w == v;
    } else {
      assert (v + w)[..|v + w| - 1] == v + w[..|w| - 1];
      ApplyConcat(disk, v, w[..|w| - 1]);
    }
  }

  lemma {:induction false} ApplyFrame(disk: Disk, w: seq<Write>, b: nat)
    requires b < |disk|
    requires forall i :: 0 <= i < |w| ==> w[i].at != b
    ensures Apply(disk, w)[b] == disk[b]
  {
    if w != [] {
      ApplyFrame(disk, w[..|w| - 1], b);
    }
  }

  /** The read-modify-write of one directory slot. */
  function EntryWrite(disk: Disk, i: nat, e: DirEntry): (w: Write)
    requires |disk| >= DATA_START && i < FS_MAX_ENTRIES
  {
    Write(EntryBlock(i), Splice(disk[EntryBlock(i)], EntryOffset(i), EncodeEntry(e)))
  }

  /** Rewriting slot `i` changes entry `i` and nothing else on the disk that is looked at. */
  lemma EntryWriteEffect(disk: Disk, i: nat, e: DirEntry)
    requires |disk| >= DATA_START && i < FS_MAX_ENTRIES
    ensures var d := Apply(disk, [EntryWrite(disk, i, e)]);
            && Entries(d) == Entries(disk)[i := e]
            && d[0] == disk[0]
            && forall b :: DATA_START <= b < |d| ==> d[b] == disk[b]
  {
    var w := EntryWrite(disk, i, e);
    ApplyOne(disk, [], w);
    assert [] + [w] == [w];
    var d := Apply(disk, [w]);
    forall j | 0 <= j < FS_MAX_ENTRIES
      ensures EntryAt(d, j) == if j == i then e else EntryAt(disk, j)
    {
      var o := EntryOffset(j);
      if j == i {
        assert d[EntryBlock(i)][o..o + ENTRY_BYTES] == EncodeEntry(e);
        EntryRoundTrip(e);
      } else if EntryBlock(j) == EntryBlock(i) {
        assert d[EntryBlock(j)][o..o + ENTRY_BYTES] == disk[EntryBlock(j)][o..o + ENTRY_BYTES];
      }
    }
  }

  /** Block writes outside the directory leave every entry alone. */
  lemma EntriesFrame(disk: Disk, d: Disk)
    requires |disk| == |d| >= DATA_START
    requires d[1] == disk[1] && d[2] == disk[2]
    ensures Entries(d) == Entries(disk)
    ensures forall i, e :: 0 <= i < FS_MAX_ENTRIES ==> EntryWrite(d, i, e) == EntryWrite(disk, i, e)
  {
    assert forall i :: 0 <= i < FS_MAX_ENTRIES ==> EntryBlock(i) == 1 || EntryBlock(i) == 2;
    assert forall i :: 0 <= i < FS_MAX_ENTRIES ==> EntryAt(d, i) == EntryAt(disk, i);
  }

  // ----- File contents

  /** Blocks a file of `size` bytes occupies, with the 32-bit sum of the source. */
  function Blocks(size: u32): (n: nat)
    ensures size <= 0xFFFF_FE00 ==> n == (size + 511) / 512 && size <= 512 * n < size + 512
  {
    Wrap32(size + 511) / 512
  }

  /** The blocks hold the bytes exactly when the sum does not wrap around. */
  lemma BlocksExact(size: u32)
    ensures 512 * Blocks(size) >= size <==> size <= 0xFFFF_FE00
  {
  }

  /** Block `b` of the data region. */
  function DataBlock(disk: Disk, b: nat): (r: Block) {
    if DATA_START + b < |disk| then disk[DATA_START + b] else Zeros(512)
  }

  /** The bytes of `n` consecutive data blocks starting at `a`. */
  function Region(disk: Disk, a: nat, n: nat): (r: seq<u8>)
    ensures |r| == 512 * n
  {
    if n == 0 then [] else Region(disk, a, n - 1) + DataBlock(disk, a + n - 1)
  }

  /** What a file entry holds: its extent, cut to its size. */
  function Content(disk: Disk, e: DirEntry): (r: seq<u8>) {
    var all := Region(disk, e.start, Blocks(e.size));
    if e.size <= |all| then all[..e.size] else all
  }

  lemma {:induction false} RegionFrame(d1: Disk, d2: Disk, a: nat, n: nat)
    requires forall b :: a <= b < a + n ==> DataBlock(d1, b) == DataBlock(d2, b)
    ensures Region(d1, a, n) == Region(d2, a, n)
  {
    if n > 0 {
      RegionFrame(d1, d2, a, n - 1);
    }
  }

  lemma {:induction false} RegionPrefix(d: Disk, a: nat, k: nat, n: nat)
    requires k <= n
    ensures Region(d, a, n)[..512 * k] == Region(d, a, k)
  {
    if k < n {
      RegionPrefix(d, a, k, n - 1);
      assert Region(d, a, n)[..512 * k] == Region(d, a, n - 1)[..512 * k];
    } else {
      assert Region(d, a, n)[..512 * k] == Region(d, a, n);
    }
  }

  /** Block `b` counts as taken by the entry; every kind but a free slot and a directory takes blocks. */
  predicate Covers(e: DirEntry, b: nat) {
    e.kind != TYPE_FREE && e.kind != TYPE_DIR && e.start <= b < e.start + Blocks(e.size)
  }

  lemma ContentFrame(d1: Disk, d2: Disk, e: DirEntry)
    requires e.kind == TYPE_FILE
    requires forall b: nat :: Covers(e, b) ==> DataBlock(d1, b) == DataBlock(d2, b)
    ensures Content(d1, e) == Content(d2, e)
  {
    assert forall b :: e.start <= b < e.start + Blocks(e.size) ==> Covers(e, b);
    RegionFrame(d1, d2, e.start, Blocks(e.size));
  }
}
