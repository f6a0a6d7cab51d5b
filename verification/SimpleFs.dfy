/**
 The SimpleFS calls as they run: a superblock kept in memory, a directory
 rewritten in place on the device, and loops over entries and data blocks.
 */
module SimpleFs {
  import opened Machine
  import opened CString
  import opened Bits
  import opened FsLayout
  import opened FsSpec
  import opened FsAccounting
  import opened FsDirectory
  import opened FsProtocol
  import opened FsRuns
  import opened FsFormat
  import opened FsLives
  import opened FsLaws

  const NO_BLOCK: u32 := 0xFFFF_FFFF

  /** A device with atomic block writes, some of which the hardware may fail. */
  class BlockDevice {
    var blocks: Disk
    ghost var log: seq<Write>
    const fails: nat -> bool
    var attempts: nat

    constructor (blocks: Disk, fails: nat -> bool)
      ensures this.blocks == blocks && this.fails == fails && log == []
    {
      this.blocks, this.fails, log, attempts := blocks, fails, [], 0;
    }

    ghost predicate Reliable() {
      forall a :: !fails(a)
    }

    method Read(b: nat) returns (ok: bool, buf: Block)
      ensures ok <==> b < |blocks|
      ensures ok ==> buf == blocks[b]
    {
      ok, buf := b < |blocks|, Zeros(512);
      if ok {
        buf := blocks[b];
      }
    }

    method Write(b: nat, buf: Block) returns (ok: bool)
      modifies this
      ensures |blocks| == old(|blocks|)
      ensures ok ==> b < |blocks| && blocks == old(blocks)[b := buf]
      ensures log == if ok then old(log) + [FsLayout.Write(b, buf)] else old(log)
      ensures !ok ==> blocks == old(blocks)
      ensures b < |blocks| && Reliable() ==> ok
    {
      ok := b < |blocks| && !fails(attempts);
      attempts := attempts + 1;
      if ok {
        blocks := blocks[b := buf];
        log := log + [FsLayout.Write(b, buf)];
      }
    }
  }

  predicate BitAt(used: seq<Bits8>, b: nat)
    requires b < 8 * |used|
  {
    used[b / 8][b % 8]
  }

  class FileSystem {
    const dev: BlockDevice
    var sb: DiskSuperblock

    constructor (dev: BlockDevice)
      ensures this.dev == dev
    {
      this.dev := dev;
      sb := Superblock(0, 0, 0, 0, 0, 0, 0, 0, Zeros(480));
    }

    ghost function State(): (s: Fs)
      reads this, dev
    {
      Fs(dev.blocks, sb)
    }

    ghost predicate Valid()
      reads this, dev
    {
      FsOk(State())
    }

    /** Calls can be made: there is a superblock in memory that fits the device, as there is after any fs_init of a disk without one. */
    ghost predicate Ready()
      reads this, dev
    {
      Usable(State())
    }

    // ----- Directory access

    method ReadEntry(i: nat) returns (ok: bool, e: DirEntry)
      requires Ready()
      ensures ok <==> i < FS_MAX_ENTRIES
      ensures ok ==> e == Entries(dev.blocks)[i]
    {
      e := FREE_ENTRY;
      if i >= FS_MAX_ENTRIES {
        return false, e;
      }
      var offset := EntryOffset(i);
      var buf;
      ok, buf := dev.Read(sb.dirStart + i / FS_ENTRIES_PER_BLOCK);
      if !ok {
        return;
      }
      e := DecodeEntry(buf[offset..offset + ENTRY_BYTES]);
    }

    method WriteEntry(i: nat, e: DirEntry) returns (ok: bool)
      requires |dev.blocks| >= DATA_START && sb.dirStart == DIR_START
      modifies dev
      ensures ok ==> i < FS_MAX_ENTRIES
      ensures dev.log == if ok then old(dev.log) + [EntryWrite(old(dev.blocks), i, e)] else old(dev.log)
      ensures dev.blocks == if ok then Apply(old(dev.blocks), [EntryWrite(old(dev.blocks), i, e)]) else old(dev.blocks)
      ensures dev.Reliable() && i < FS_MAX_ENTRIES ==> ok
    {
      if i >= FS_MAX_ENTRIES {
        return false;
      }
      var block := sb.dirStart + i / FS_ENTRIES_PER_BLOCK;
      var offset := EntryOffset(i);
      var buf;
      ok, buf := dev.Read(block);
      if !ok {
        return;
      }
      buf := Splice(buf, offset, EncodeEntry(e));
      ghost var x := EntryWrite(dev.blocks, i, e);
      ApplyOne(dev.blocks, [], x);
      assert [] + [x] == [x];
      ok := dev.Write(block, buf);
    }

    method FindEntry(name: seq<u8>) returns (index: nat, e: DirEntry)
      requires Ready() && Terminated(name) && Comparable(Entries(dev.blocks), Str(name))
      ensures index == Find(Entries(dev.blocks), Str(name))
      ensures index < FS_MAX_ENTRIES ==> e == Entries(dev.blocks)[index]
    {
      hide FirstDifference, Str, EntryAt, DecodeSuperblock;
      ghost var es := Entries(dev.blocks);
      index, e := 0, FREE_ENTRY;
      while index < FS_MAX_ENTRIES
        invariant index <= FS_MAX_ENTRIES
        invariant forall j :: 0 <= j < index ==> !Named(es[j], Str(name))
      {
        var ok;
        ok, e := ReadEntry(index);
        if e.kind != TYPE_FREE {
          TerminatedLength(e.name);
          var c := Strcmp(e.name, name);
          if c == 0 {
            return;
          }
        }
        index := index + 1;
      }
    }

    method FindFreeSlot() returns (slot: nat)
      requires Ready()
      ensures slot == FreeSlot(Entries(dev.blocks))
    {
      ghost var es := Entries(dev.blocks);
      slot := 0;
      while slot < FS_MAX_ENTRIES
        invariant slot <= FS_MAX_ENTRIES
        invariant forall j :: 0 <= j < slot ==> Used(es[j])
      {
        var ok, e := ReadEntry(slot);
        if e.kind == TYPE_FREE {
          return;
        }
        slot := slot + 1;
      }
    }

    // ----- Block allocation

    /** Rebuilds the occupancy bitmap from the directory. */
    method MarkUsed(used: array<Bits8>, dataBlocks: nat)
      requires Ready() && used.Length == 128 && dataBlocks == |dev.blocks| - DATA_START
      requires forall b :: 0 <= b < 1024 ==> !BitAt(used[..], b)
      modifies used
      ensures forall b: nat :: b < Limit(|dev.blocks|) ==>
                (BitAt(used[..], b) <==> exists i :: 0 <= i < FS_MAX_ENTRIES && Covers(Entries(dev.blocks)[i], b))
    {
      ghost var es := Entries(dev.blocks);
      ghost var limit := Limit(|dev.blocks|);
      var i := 0;
      while i < FS_MAX_ENTRIES
        invariant i <= FS_MAX_ENTRIES
        invariant forall b: nat :: b < limit ==>
                    (BitAt(used[..], b) <==> exists j :: 0 <= j < i && Covers(es[j], b))
      {
        var ok, e := ReadEntry(i);
        if e.kind != TYPE_FREE && e.kind != TYPE_DIR {
          MarkExtent(used, e, dataBlocks);
        }
        i := i + 1;
      }
    }

    method MarkExtent(used: array<Bits8>, e: DirEntry, dataBlocks: nat)
      requires used.Length == 128 && e.kind != TYPE_FREE && e.kind != TYPE_DIR
      modifies used
      ensures forall b: nat :: b < 1024 && b < dataBlocks ==>
                (BitAt(used[..], b) <==> old(BitAt(used[..], b)) || Covers(e, b))
    {
      var fileBlocks := Blocks(e.size);
      var k := 0;
      while k < fileBlocks && e.start + k < dataBlocks
        invariant k <= fileBlocks
        invariant forall b: nat :: b < 1024 ==>
                    (BitAt(used[..], b) <==> old(BitAt(used[..], b)) || e.start <= b < e.start + k)
      {
        var blk := e.start + k;
        if blk / 8 < 128 {
          SetOne(used, blk);
        }
        k := k + 1;
      }
    }

    method SetOne(used: array<Bits8>, blk: nat)
      requires used.Length == 128 && blk < 1024
      modifies used
      ensures forall b: nat :: b < 1024 ==> (BitAt(used[..], b) <==> b == blk || old(BitAt(used[..], b)))
    {
      used[blk / 8] := used[blk / 8][blk % 8 := true];
    }

    /** The lowest free run of `count` blocks, or NO_BLOCK exactly when there is none. */
    method AllocBlocks(count: u32) returns (start: u32)
      requires Ready()
      ensures start == NO_BLOCK <==>
                count == 0 || count > sb.free || !Fits(Entries(dev.blocks), Limit(|dev.blocks|), count)
      ensures start != NO_BLOCK ==> FirstFit(Entries(dev.blocks), Limit(|dev.blocks|), count, start)
    {
      hide DecodeSuperblock, EntryAt, Str;
      if count == 0 || count > sb.free {
        return NO_BLOCK;
      }
      ghost var es := Entries(dev.blocks);
      ghost var limit := Limit(|dev.blocks|);
      var dataBlocks := sb.total - sb.dataStart;
      var used := new Bits8[128](_ => ZERO_8);
      MarkUsed(used, dataBlocks);
      var consecutive, b := 0, 0;
      start := 0;
      while b < dataBlocks && b / 8 < 128
        invariant b <= limit && 0 <= consecutive < count && consecutive <= b
        invariant consecutive > 0 ==> start == b - consecutive
        invariant forall c: nat, i :: 0 <= i < FS_MAX_ENTRIES && b - consecutive <= c < b ==> !Covers(es[i], c)
        invariant consecutive < b ==> exists i :: 0 <= i < FS_MAX_ENTRIES && Covers(es[i], b - consecutive - 1)
        invariant forall s: nat :: s + count <= b ==> !FreeRun(es, s, count)
      {
        if !used[b / 8][b % 8] {
          assert !BitAt(used[..], b);
          if consecutive == 0 {
            start := b;
          }
          consecutive := consecutive + 1;
          if consecutive == count {
            assert FreeRun(es, start, count);
            return;
          }
        } else {
          assert BitAt(used[..], b);
          consecutive := 0;
        }
        b := b + 1;
      }
      start := NO_BLOCK;
    }

    // ----- Mounting

    method FlushSuperblock() returns (ok: bool)
      requires |dev.blocks| > 0
      modifies dev
      ensures dev.log == if ok then old(dev.log) + [FsLayout.Write(0, EncodeSuperblock(sb))] else old(dev.log)
      ensures dev.blocks == if ok then old(dev.blocks)[0 := EncodeSuperblock(sb)] else old(dev.blocks)
      ensures dev.Reliable() ==> ok
    {
      ok := dev.Write(0, EncodeSuperblock(sb));
    }

    /** Zeroes the directory blocks, after the superblock of a format. */
    method ClearDirectory(ghost d0: Disk, ghost log0: seq<Write>) returns (ok: bool, ghost k: nat)
      requires Formattable(d0) && dev.blocks == FormatTo(d0, 1) && dev.log == log0 + FormatPlan(|d0|)[..1] && sb == FormatSb(|d0|)
      modifies dev
      ensures k <= 3 && (ok <==> k == 3) && dev.blocks == FormatTo(d0, k) && dev.log == log0 + FormatPlan(|d0|)[..k]
      ensures dev.Reliable() ==> ok
    {
      hide EncodeSuperblock, Apply;
      ok, k := true, 1;
      var i := 0;
      while i < FS_DIR_BLOCKS
        invariant i <= FS_DIR_BLOCKS && ok && k == i + 1
        invariant dev.blocks == FormatTo(d0, k) && dev.log == log0 + FormatPlan(|d0|)[..k]
      {
        OneWrite(d0, FormatPlan(|d0|), k);
        OneLogged(FormatPlan(|d0|), k);
        ok := dev.Write(sb.dirStart + i, Zeros(512));
        if !ok {
          return;
        }
        i, k := i + 1, k + 1;
      }
    }

    /** The writes of a format up to the first that fails; all three leave a fresh, empty, accounted file system. */
    method Format() returns (ok: bool, ghost k: nat)
      requires Formattable(dev.blocks)
      modifies this, dev
      ensures k <= 3 && (ok <==> k == 3) && dev.blocks == FormatTo(old(dev.blocks), k) && sb == FormatSb(|dev.blocks|)
      ensures dev.log == old(dev.log) + FormatPlan(|dev.blocks|)[..k]
      ensures ok ==> Valid() && Accounted(State()) && Abs(dev.blocks) == map[]
      ensures !ok && !old(HasMagic(dev.blocks)) ==> (Mountable(dev.blocks) <==> k == 0 || LeftOk(old(dev.blocks), k))
      ensures dev.Reliable() ==> ok
    {
      hide EncodeSuperblock, DecodeSuperblock, Apply, Mountable, LeftOk, HasMagic, Accounted;
      ghost var d0, log0 := dev.blocks, dev.log;
      sb := Superblock(FS_MAGIC, FS_VERSION, |dev.blocks|, |dev.blocks| - DATA_START,
                       DIR_START, FS_DIR_BLOCKS, DATA_START, 0, Zeros(480));
      FormatNone(d0);
      OneWrite(d0, FormatPlan(|d0|), 0);
      OneLogged(FormatPlan(|d0|), 0);
      FormattedDisk(d0);
      k := 0;
      ok := FlushSuperblock();
      if ok {
        ok, k := ClearDirectory(d0, log0);
      }
      if !HasMagic(d0) {
        FormatCrash(d0, k);
      }
    }

    /** Mounts a disk with the magic number as it is, consistent or not; formats any other. */
    method Init() returns (ok: bool, ghost k: nat)
      requires Formattable(dev.blocks)
      modifies this, dev
      ensures k <= 3 && On(State()) == Mounted(old(dev.blocks), k) && (ok <==> old(HasMagic(dev.blocks)) || k == 3)
      ensures !old(HasMagic(dev.blocks)) ==> Ready() && sb == FormatSb(|dev.blocks|)
      ensures dev.log == old(dev.log) + if old(HasMagic(dev.blocks)) then [] else FormatPlan(|dev.blocks|)[..k]
      ensures old(HasMagic(dev.blocks)) ==> ok && (Valid() <==> old(DiskOk(dev.blocks)))
      ensures !old(HasMagic(dev.blocks)) && ok ==> Valid() && Accounted(State()) && Abs(dev.blocks) == map[]
      ensures dev.Reliable() ==> ok
    {
      hide EncodeSuperblock, FormatPlan, FormatTo, Accounted;
      k := 0;
      var buf;
      ok, buf := dev.Read(0);
      sb := DecodeSuperblock(buf);
      if !ok || sb.magic != FS_MAGIC {
        ok, k := Format();
      }
    }

    // ----- Calls

    method BuildEntry(name: seq<u8>, kind: u8) returns (e: DirEntry)
      requires Terminated(name) && |Str(name)| <= FS_NAME_MAX
      ensures e == NewEntry(Str(name), kind)
    {
      var field := new u8[24](_ => 0);
      Strncpy(field, name, FS_NAME_MAX);
      ghost var padded := Str(name) + Zeros(24 - |Str(name)|);
      assert forall j :: 0 <= j < 23 ==> field[j] == field[..23][j] == padded[j];
      field[FS_NAME_MAX] := 0;
      assert field[..] == padded;
      e := Entry(field[..], kind, 0, 0, 0);
    }

    method Create(name: seq<u8>, kind: u8) returns (ok: bool, ghost w: seq<Write>)
      requires Ready() && Terminated(name)
      modifies dev
      ensures dev.log == old(dev.log) + w && Ready() && (old(Valid()) ==> Valid())
      ensures Effect(old(State()), w, FsRuns.Create(Str(name), kind), ok, State(), dev.Reliable())
      ensures old(Valid()) && dev.Reliable() ==> (ok <==> MayCreate(old(Abs(dev.blocks)), Str(name), kind))
    {
      hide DecodeSuperblock, EntryAt, DirOk, Find, FreeSlot, Str, EntryWrite, SbAgrees, MayCreate;
      ghost var s0 := State();
      ok, w := false, [];
      var len := Strlen(name);
      if FsOk(s0) {
        CreateExact(s0.disk, Str(name), kind);
      }
      if len == 0 || len > FS_NAME_MAX || (kind != TYPE_FILE && kind != TYPE_DIR) {
        return;
      }
      var existing, e := FindEntry(name);
      if existing < FS_MAX_ENTRIES {
        return;
      }
      var slot := FindFreeSlot();
      if slot >= FS_MAX_ENTRIES {
        return;
      }
      var entry := BuildEntry(name, kind);
      ok := WriteEntry(slot, entry);
      w := if ok then [EntryWrite(s0.disk, slot, entry)] else [];
      if FsOk(s0) {
        CreateRefines(s0, Str(name), kind, w, ok, sb);
      }
    }

    /** One block of the image, copied through the scratch buffer when it is short. */
    method NextBlock(data: seq<u8>, src: nat, remaining: nat, ghost image: seq<Block>, ghost i: nat)
      returns (buf: Block, chunk: nat)
      requires IsImage(image, data) && i < |image|
      requires src == 512 * i && src + remaining == |data|
      ensures buf == image[i]
      ensures chunk == if remaining > 512 then 512 else remaining
    {
      assert image[i] == Chunk(data, i);
      chunk := if remaining > BLOCK_SIZE then BLOCK_SIZE else remaining;
      if chunk < BLOCK_SIZE {
        buf := data[src..src + chunk] + Zeros(BLOCK_SIZE - chunk);
      } else {
        buf := data[src..src + chunk];
      }
    }

    /** The data phase: the image of `data`, block by block, up to the first failed write. */
    method WriteData(start: nat, data: seq<u8>, needed: nat, ghost image: seq<Block>) returns (ok: bool, ghost k: nat)
      requires sb.dataStart == DATA_START && |image| == needed && IsImage(image, data)
      requires needed > 0 ==> 512 * needed < |data| + 512 && DATA_START + start + needed <= |dev.blocks|
      modifies dev
      ensures k <= needed && (ok <==> k == needed)
      ensures dev.log == old(dev.log) + RunOfWrites(start, image)[..k]
      ensures dev.blocks == Apply(old(dev.blocks), RunOfWrites(start, image)[..k])
      ensures dev.Reliable() ==> ok
    {
      ghost var d0, log0 := dev.blocks, dev.log;
      ghost var dw := RunOfWrites(start, image);
      var src, remaining, i := 0, |data|, 0;
      k := 0;
      while i < needed
        invariant i <= needed && k == i && src + remaining == |data|
        invariant i < needed ==> src == 512 * i
        invariant |dev.blocks| == |d0| && dev.log == log0 + dw[..i] && dev.blocks == Apply(d0, dw[..i])
      {
        var buf, chunk := NextBlock(data, src, remaining, image, i);
        assert dw[..i + 1] == dw[..i] + [dw[i]];
        ApplyOne(d0, dw[..i], dw[i]);
        ok := dev.Write(sb.dataStart + start + i, buf);
        if !ok {
          return;
        }
        src, remaining := src + chunk, remaining - chunk;
        i, k := i + 1, k + 1;
      }
      ok := true;
    }

    /** Recounts the blocks of all files from the directory. */
    method CountUsed() returns (used: u32)
      requires Ready()
      ensures used == Wrap32(UsedBlocks(Entries(dev.blocks)))
    {
      hide EntryAt, DecodeSuperblock;
      ghost var es := Entries(dev.blocks);
      used := 0;
      var i := 0;
      while i < FS_MAX_ENTRIES
        invariant i <= FS_MAX_ENTRIES && used == Wrap32(UsedBlocks(es[..i]))
      {
        var ok, e := ReadEntry(i);
        assert es[..i + 1][..i] == es[..i];
        WrapSum(UsedBlocks(es[..i]), FileBlocks(e));
        if e.kind == TYPE_FILE && e.size > 0 {
          used := Wrap32(used + Blocks(e.size));
        }
        i := i + 1;
      }
      assert es[..FS_MAX_ENTRIES] == es;
    }

    /** Finds the file and a free extent for `data`. */
    method Locate(name: seq<u8>, data: seq<u8>) returns (found: bool, index: nat, e: DirEntry, start: u32)
      requires Ready() && Terminated(name) && Comparable(Entries(dev.blocks), Str(name)) && |data| <= MAX_FILE
      ensures found <==> WriteAllowed(State(), Str(name), data)
      ensures found ==> index == Find(Entries(dev.blocks), Str(name)) < FS_MAX_ENTRIES && e == Entries(dev.blocks)[index]
      ensures found ==> start < 0x1_0000 && Allocates(Entries(dev.blocks), Limit(|dev.blocks|), |data|, start)
    {
      start := 0;
      index, e := FindEntry(name);
      if index >= FS_MAX_ENTRIES || e.kind != TYPE_FILE {
        return false, index, e, start;
      }
      var needed := Blocks(|data|);
      if needed > 0 {
        start := AllocBlocks(needed);
        if start == NO_BLOCK {
          return false, index, e, start;
        }
      }
      found := true;
    }

    /** Recounts the free blocks and flushes the superblock, whose failure goes unreported. */
    method UpdateFreeCount() returns (ghost flushed: bool)
      requires Ready()
      modifies this, dev
      ensures sb == old(sb).(free := Recount(old(Entries(dev.blocks)), old(sb).total))
      ensures dev.log == old(dev.log) + (if flushed then [FsLayout.Write(0, EncodeSuperblock(sb))] else [])
      ensures dev.blocks == if flushed then old(dev.blocks)[0 := EncodeSuperblock(sb)] else old(dev.blocks)
      ensures dev.Reliable() ==> flushed
    {
      var used := CountUsed();
      var total := sb.total - sb.dataStart;
      sb := sb.(free := if total > used then total - used else 0);
      var ok := FlushSuperblock();
      flushed := ok;
    }

    /** The switch: rewrites the directory entry, then recounts and flushes. */
    method Publish(index: nat, e: DirEntry, start: u32, data: seq<u8>, ghost s0: Fs, ghost n: Name)
      returns (ok: bool, ghost w: seq<Write>)
      requires Writing(s0, n, data, start)
      requires State() == Fs(Apply(s0.disk, DataWrites(start, data)), s0.sb)
      requires index == Find(Entries(s0.disk), n) < FS_MAX_ENTRIES && e == Entries(s0.disk)[index]
      modifies this, dev
      ensures dev.log == old(dev.log) + w
      ensures Effect(s0, DataWrites(start, data) + w, FsRuns.WriteFile(n, data), ok, State(), dev.Reliable())
    {
      hide EncodeSuperblock, DecodeSuperblock, EntryWrite, Apply, Entries, Find, Effect, DirOk, Recount,
           Blocks, DataWrites, Allocates, WriteAllowed, Writing, Usable, Rewritten, FsRuns.Issues;
      WritingFacts(s0, n, data, start);
      assert start % 0x1_0000 == start;
      ghost var d1, log1 := dev.blocks, dev.log;
      ok := WriteEntry(index, Rewritten(e, start % 0x1_0000, |data|));
      if !ok {
        w := [];
        NoSwitch(s0, n, data, start, dev.Reliable());
        return;
      }
      w := Settle(index, start, data, s0, n, d1, log1);
    }

    /** After the switch: recounts the free blocks and flushes the superblock. */
    method Settle(index: nat, start: u32, data: seq<u8>, ghost s0: Fs, ghost n: Name, ghost d1: Disk, ghost log1: seq<Write>)
      returns (ghost w: seq<Write>)
      requires Writing(s0, n, data, start) && d1 == Apply(s0.disk, DataWrites(start, data)) && |d1| >= DATA_START
      requires index == Find(Entries(s0.disk), n) < FS_MAX_ENTRIES
      requires var e := Rewritten(Entries(s0.disk)[index], start, |data|);
               && State() == Fs(Apply(d1, [EntryWrite(d1, index, e)]), s0.sb)
               && dev.log == log1 + [EntryWrite(d1, index, e)]
      modifies this, dev
      ensures dev.log == log1 + w
      ensures Effect(s0, DataWrites(start, data) + w, FsRuns.WriteFile(n, data), true, State(), dev.Reliable())
    {
      hide EncodeSuperblock, DecodeSuperblock, EntryWrite, Apply, Entries, Find, Effect, DirOk, Recount,
           Blocks, DataWrites, Allocates, WriteAllowed, Writing, Usable;
      WritingFacts(s0, n, data, start);
      Switched(s0, n, data, start);
      ghost var e := Rewritten(Entries(s0.disk)[index], start, |data|);
      ghost var flushed := UpdateFreeCount();
      w := SwitchWrites(d1, index, e, flushed, sb);
      assert dev.log == log1 + w;
      SwitchedAndFlushed(s0, n, data, start, flushed, dev.Reliable());
    }

    method WriteFile(name: seq<u8>, data: seq<u8>) returns (ok: bool, ghost w: seq<Write>)
      requires Ready() && Terminated(name) && Comparable(Entries(dev.blocks), Str(name)) && |data| <= MAX_FILE
      modifies this, dev
      ensures dev.log == old(dev.log) + w && Ready() && (old(Valid()) ==> Valid())
      ensures Effect(old(State()), w, FsRuns.WriteFile(Str(name), data), ok, State(), dev.Reliable())
      ensures old(Valid()) && dev.Reliable() ==> (ok <==> old(MayWrite(State(), Str(name), data)))
    {
      hide DecodeSuperblock, Apply, Entries, Find, DirOk, Str, Chunk, Allocates, WriteAllowed,
           Issues, Clean, Blocks, DataWrites, IsImage, MayWrite;
      ghost var s0, n := State(), Str(name);
      ok, w := false, [];
      var found, index, e, start := Locate(name, data);
      if !found {
        NothingWritten(s0, n, data);
        Foreseen(s0, n, data, w, ok, State(), dev.Reliable());
        return;
      }
      ghost var k, v;
      ReadyToWrite(s0, n, data, start);
      ok, k := WriteData(start, data, Blocks(|data|), Chunks(data));
      w := DataWrites(start, data)[..k];
      DataOutcome(s0, n, data, start, k);
      if !ok {
        StaysValid(s0, w, FsRuns.WriteFile(n, data), ok, State(), false);
        Foreseen(s0, n, data, w, ok, State(), dev.Reliable());
        return;
      }
      ok, v := Publish(index, e, start, data, s0, n);
      assert old(dev.log) + w + v == old(dev.log) + (w + v);
      w := w + v;
      StaysValid(s0, w, FsRuns.WriteFile(n, data), ok, State(), dev.Reliable());
      Foreseen(s0, n, data, w, ok, State(), dev.Reliable());
    }

    /** Copies `toRead` bytes of an extent out of the device. */
    method CopyOut(start: nat, toRead: u32, blocks: nat) returns (dst: seq<u8>)
      requires sb.dataStart == DATA_START && 512 * blocks >= toRead
      requires blocks > 0 ==> 512 * blocks < toRead + 512 && DATA_START + start + blocks <= |dev.blocks|
      ensures dst == Region(dev.blocks, start, blocks)[..toRead]
    {
      dst := [];
      var remaining, i := toRead, 0;
      while i < blocks
        invariant i <= blocks && |dst| + remaining == toRead
        invariant i < blocks ==> dst == Region(dev.blocks, start, i)
        invariant i == blocks ==> dst == Region(dev.blocks, start, blocks)[..toRead]
      {
        var ok, buf := dev.Read(sb.dataStart + start + i);
        var chunk := if remaining > BLOCK_SIZE then BLOCK_SIZE else remaining;
        assert buf == DataBlock(dev.blocks, start + i);
        assert i + 1 < blocks ==> buf[..chunk] == buf;
        dst := dst + buf[..chunk];
        remaining := remaining - chunk;
        i := i + 1;
      }
    }

    /** The first `max` bytes of the file, or None when there is no such file. */
    method ReadFile(name: seq<u8>, max: u32) returns (r: Option<seq<u8>>)
      requires Valid() && Terminated(name)
      ensures r == match View(dev.blocks, Str(name))
                   case Some(File(bytes)) => Some(if |bytes| <= max then bytes else bytes[..max])
                   case _ => None
    {
      hide DecodeSuperblock, EntryAt, DirOk, Find, Str, SbAgrees, Comparable, Region, Blocks;
      FsOkUsable(State(), Str(name));
      var index, e := FindEntry(name);
      if index >= FS_MAX_ENTRIES {
        return None;
      }
      EntryKind(dev.blocks, index);
      if e.kind != TYPE_FILE {
        return None;
      }
      var toRead := if e.size > max then max else e.size;
      FileOnDisk(dev.blocks, index, toRead);
      var dst := CopyOut(e.start, toRead, Blocks(toRead));
      r := Some(dst);
    }

    method IsChild(e: DirEntry, name: seq<u8>, len: nat) returns (child: bool)
      requires Terminated(name) && len == |Str(name)| < 24
      ensures child <==> Str(name) + [SLASH] <= Str(e.name)
    {
      var c := Strncmp(e.name, name, len);
      ClipPrefix(Str(e.name), Str(name));
      child := c == 0 && e.name[len] == SLASH;
      TerminatedLength(e.name);
      if child {
        assert Str(e.name)[len] == SLASH;
      }
      if Str(name) + [SLASH] <= Str(e.name) {
        assert Str(e.name)[..len] == Str(name) && Str(e.name)[len] == SLASH;
      }
    }

    /** Clears slot `i`, unless the write fails. */
    method ClearSlot(i: nat, ghost s0: Fs, ghost log0: seq<Write>, ghost done: seq<nat>)
      returns (ok: bool, ghost done': seq<nat>)
      requires Usable(s0) && Clearing(s0, done, State()) && i < FS_MAX_ENTRIES
      requires dev.log == log0 + ClearWrites(s0.disk, done)
      modifies dev
      ensures Clearing(s0, done', State())
      ensures dev.log == log0 + ClearWrites(s0.disk, done')
      ensures done' == if ok then done + [i] else done
      ensures dev.Reliable() ==> ok
    {
      hide ClearWrites, EntryWrite, Apply, DecodeSuperblock, DirOk;
      ok := WriteEntry(i, FREE_ENTRY);
      done' := if ok then done + [i] else done;
      if ok {
        ClearOneMore(s0.disk, done, i);
      }
    }

    /** Whether slot `i` holds an entry below the directory, and the blocks it has; earlier slots may be cleared already. */
    method ExamineSlot(i: nat, name: seq<u8>, len: nat, ghost s0: Fs, ghost done: seq<nat>) returns (child: bool, blocks: nat)
      requires Usable(s0) && Clearing(s0, done, State()) && i < FS_MAX_ENTRIES && i !in done
      requires Terminated(name) && len == |Str(name)| < 24
      ensures var e := Entries(s0.disk)[i];
              (child <==> Used(e) && Str(name) + [SLASH] <= Str(e.name)) && blocks == FileBlocks(e)
    {
      hide ClearWrites, Apply, DecodeSuperblock, EntryAt, Str, Blocks;
      ClearingEntries(s0, done, State());
      var ok, e := ReadEntry(i);
      child := false;
      if e.kind != TYPE_FREE {
        child := IsChild(e, name, len);
      }
      blocks := 0;
      if e.kind == TYPE_FILE && e.size > 0 {
        blocks := Blocks(e.size);
      }
    }

    /** Clears every entry below the directory; a failed clear is skipped. */
    method DeleteChildren(name: seq<u8>, len: nat) returns (freed: nat, ghost done: seq<nat>)
      requires Ready() && Terminated(name) && len == |Str(name)| < 24
      modifies dev
      ensures Clearing(old(State()), done, State())
      ensures dev.log == old(dev.log) + ClearWrites(old(dev.blocks), done)
      ensures var kids := Children(old(Entries(dev.blocks)), Str(name), FS_MAX_ENTRIES);
              && freed == Freed(old(Entries(dev.blocks)), kids)
              && (forall i :: i in done ==> i in kids)
              && (dev.Reliable() ==> done == kids)
    {
      hide ClearWrites, Apply, DecodeSuperblock, EntryAt, Str, Blocks, Children, Freed, Terminated, FileBlocks;
      ghost var s0, log0 := State(), dev.log;
      ghost var es := Entries(s0.disk);
      freed, done := 0, [];
      ClearingStarts(s0, Str(name));
      var i := 0;
      while i < FS_MAX_ENTRIES
        invariant i <= FS_MAX_ENTRIES && Clearing(s0, done, State())
        invariant dev.log == log0 + ClearWrites(s0.disk, done)
        invariant freed == Freed(es, Children(es, Str(name), i))
        invariant forall j :: j in done ==> j in Children(es, Str(name), i)
        invariant dev.Reliable() ==> done == Children(es, Str(name), i)
      {
        var child, blocks := ExamineSlot(i, name, len, s0, done);
        NextChild(es, Str(name), i);
        if child {
          freed := freed + blocks;
          var ok;
          ok, done := ClearSlot(i, s0, log0, done);
        }
        i := i + 1;
      }
    }

    /** Clears the children of a directory, then the entry itself; `freed` counts all of them. */
    method ClearVictims(name: seq<u8>, index: nat, e: DirEntry) returns (ok: bool, freed: nat, ghost done: seq<nat>)
      requires Ready() && Terminated(name) && Comparable(Entries(dev.blocks), Str(name))
      requires index == Find(Entries(dev.blocks), Str(name)) < FS_MAX_ENTRIES && e == Entries(dev.blocks)[index]
      modifies dev
      ensures Clearing(old(State()), done, State())
      ensures dev.log == old(dev.log) + ClearWrites(old(dev.blocks), done)
      ensures Chosen(old(State()), Str(name), done, ok, dev.Reliable())
      ensures sb.(free := Wrap32(sb.free + freed)) == AfterDelete(sb, old(Entries(dev.blocks)), Str(name))
    {
      hide ClearWrites, Apply, DecodeSuperblock, EntryAt, Blocks, Children, Freed, Victims, DirOk, Find, Str, AfterDelete;
      ghost var s0, log0, n := State(), dev.log, Str(name);
      NameFits(s0, n);
      ClearingStarts(s0, n);
      VictimsAre(s0, n);
      freed, done := if e.kind == TYPE_FILE && e.size > 0 then Blocks(e.size) else 0, [];
      if e.kind == TYPE_DIR {
        var len := Strlen(name);
        var below;
        below, done := DeleteChildren(name, len);
        freed := freed + below;
      }
      ok, done := ClearSlot(index, s0, log0, done);
    }

    method Delete(name: seq<u8>) returns (ok: bool, ghost w: seq<Write>, ghost done: seq<nat>)
      requires Ready() && Terminated(name) && Comparable(Entries(dev.blocks), Str(name))
      modifies this, dev
      ensures dev.log == old(dev.log) + w && Ready() && (old(Valid()) ==> Valid())
      ensures Effect(old(State()), w, FsRuns.Delete(Str(name), done), ok, State(), dev.Reliable())
    {
      hide ClearWrites, Apply, DecodeSuperblock, EncodeSuperblock, EntryAt, Victims, Issues, Clean, AfterDelete,
           DirOk, Find, Str, Chosen;
      ghost var s0, n := State(), Str(name);
      ok, w, done := false, [], [];
      var index, e := FindEntry(name);
      if index >= FS_MAX_ENTRIES {
        NothingDeleted(s0, n);
        return;
      }
      var freed;
      ok, freed, done := ClearVictims(name, index, e);
      w := ClearWrites(s0.disk, done);
      if !ok {
        NotDeleted(s0, n, done, dev.Reliable());
        StaysValid(s0, w, FsRuns.Delete(n, done), ok, State(), dev.Reliable());
        return;
      }
      sb := sb.(free := Wrap32(sb.free + freed));
      ghost var cleared := dev.log;
      var flushed := FlushSuperblock();
      ghost var tail := if flushed then [FsLayout.Write(0, EncodeSuperblock(sb))] else [];
      assert dev.log == cleared + tail;
      assert old(dev.log) + w + tail == old(dev.log) + (w + tail);
      w := w + tail;
      Deleted(s0, n, done, flushed, dev.Reliable());
      StaysValid(s0, w, FsRuns.Delete(n, done), ok, State(), dev.Reliable());
    }
  }

  /** The slots `done` have been cleared on the way from `s0` to `s1`, and nothing else. */
  ghost predicate Clearing(s0: Fs, done: seq<nat>, s1: Fs)
    requires |s0.disk| >= DATA_START
  {
    && (forall i :: 0 <= i < |done| ==> done[i] < FS_MAX_ENTRIES)
    && s1 == Fs(Apply(s0.disk, ClearWrites(s0.disk, done)), s0.sb)
  }

  lemma ClearingStarts(s0: Fs, n: Name)
    requires |s0.disk| >= DATA_START
    ensures Clearing(s0, [], s0) && ClearWrites(s0.disk, []) == []
    ensures Children(Entries(s0.disk), n, 0) == [] && Freed(Entries(s0.disk), []) == 0
  {
  }

  lemma ClearingEntries(s0: Fs, done: seq<nat>, s1: Fs)
    requires Usable(s0) && Clearing(s0, done, s1)
    ensures Entries(s1.disk) == Cleared(Entries(s0.disk), done)
  {
    hide ClearWrites, Apply;
    ClearEffect(s0.disk, done);
  }

  lemma NextChild(es: seq<DirEntry>, n: Name, i: nat)
    requires i < |es|
    ensures var kids := Children(es, n, i);
            var next := Children(es, n, i + 1);
            && next == (if Used(es[i]) && n + [SLASH] <= Str(es[i].name) then kids + [i] else kids)
            && Freed(es, next) == Freed(es, kids) + (if next == kids then 0 else FileBlocks(es[i]))
  {
    var kids := Children(es, n, i);
    assert (kids + [i])[..|kids|] == kids;
  }

  /** A call keeps the superblock fitting the disk, and a consistent disk consistent. */
  lemma StaysValid(s0: Fs, w: seq<Write>, ev: Event, ok: bool, s1: Fs, reliable: bool)
    requires Usable(s0) && Effect(s0, w, ev, ok, s1, reliable)
    ensures Usable(s1) && (FsOk(s0) ==> FsOk(s1))
  {
    if FsOk(s0) {
      CallRefines(s0, ev, w, ok, s1.sb);
    }
  }

  lemma WrapSum(a: nat, b: nat)
    ensures Wrap32(Wrap32(a) + b) == Wrap32(a + b)
  {
  }

  lemma NothingDeleted(s0: Fs, n: Name)
    requires Usable(s0) && Find(Entries(s0.disk), n) == FS_MAX_ENTRIES
    ensures Effect(s0, [], FsRuns.Delete(n, []), false, s0, true)
  {
  }

  lemma NameFits(s0: Fs, n: Name)
    requires Usable(s0) && Comparable(Entries(s0.disk), n) && Find(Entries(s0.disk), n) < FS_MAX_ENTRIES
    ensures |n| < 24
  {
    var e := Entries(s0.disk)[Find(Entries(s0.disk), n)];
    TerminatedLength(e.name);
  }

  lemma SlotNotChild(es: seq<DirEntry>, n: Name)
    requires Find(es, n) < |es|
    ensures Find(es, n) !in Children(es, n, |es|)
  {
    assert Named(es[Find(es, n)], n);
  }

  lemma FreedAppend(es: seq<DirEntry>, todo: seq<nat>, i: nat)
    requires forall j :: 0 <= j < |todo| ==> todo[j] < |es|
    requires i < |es|
    ensures Freed(es, todo + [i]) == Freed(es, todo) + FileBlocks(es[i])
  {
    assert (todo + [i])[..|todo|] == todo;
  }

  /** The victims in terms of what `fs_delete` visits. */
  lemma VictimsAre(s0: Fs, n: Name)
    requires Usable(s0) && Find(Entries(s0.disk), n) < FS_MAX_ENTRIES
    ensures var es := Entries(s0.disk);
            var slot := Find(es, n);
            var kids := if es[slot].kind == TYPE_DIR then Children(es, n, FS_MAX_ENTRIES) else [];
            && Victims(es, n) == kids + [slot] && slot !in kids
            && s0.sb.(free := Wrap32(s0.sb.free + (Freed(es, kids) + FileBlocks(es[slot])))) == AfterDelete(s0.sb, es, n)
  {
    hide Find, Children, Freed, DirOk, DecodeSuperblock, EntryAt, FileBlocks;
    var es := Entries(s0.disk);
    var slot := Find(es, n);
    var kids := if es[slot].kind == TYPE_DIR then Children(es, n, FS_MAX_ENTRIES) else [];
    SlotNotChild(es, n);
    assert Victims(es, n) == kids + [slot];
    FreedAppend(es, kids, slot);
  }

  /** Which slots were cleared: victims only, the entry itself exactly when `ok`, all without faults. */
  ghost predicate Chosen(s0: Fs, n: Name, done: seq<nat>, ok: bool, reliable: bool)
    requires |s0.disk| >= DATA_START && Find(Entries(s0.disk), n) < FS_MAX_ENTRIES
  {
    var victims := Victims(Entries(s0.disk), n);
    && (forall i :: 0 <= i < |done| ==> done[i] < FS_MAX_ENTRIES)
    && (forall i :: i in done ==> i in victims)
    && (ok <==> Find(Entries(s0.disk), n) in done)
    && (reliable ==> ok && done == victims)
  }

  lemma NotDeleted(s0: Fs, n: Name, done: seq<nat>, reliable: bool)
    requires Usable(s0) && Find(Entries(s0.disk), n) < FS_MAX_ENTRIES && Chosen(s0, n, done, false, reliable)
    ensures var w := ClearWrites(s0.disk, done);
            Effect(s0, w, FsRuns.Delete(n, done), false, Fs(Apply(s0.disk, w), s0.sb), reliable)
  {
    hide ClearWrites, Apply, DecodeSuperblock, DirOk, Victims, Find, AfterDelete;
  }

  lemma Deleted(s0: Fs, n: Name, done: seq<nat>, flushed: bool, reliable: bool)
    requires Usable(s0) && Find(Entries(s0.disk), n) < FS_MAX_ENTRIES && Chosen(s0, n, done, true, reliable)
    requires reliable ==> flushed
    ensures var sb' := AfterDelete(s0.sb, Entries(s0.disk), n);
            var v := ClearWrites(s0.disk, done);
            var w := v + if flushed then [FsLayout.Write(0, EncodeSuperblock(sb'))] else [];
            var d := Apply(s0.disk, v);
            var s1 := Fs(if flushed then d[0 := EncodeSuperblock(sb')] else d, sb');
            Effect(s0, w, FsRuns.Delete(n, done), true, s1, reliable)
  {
    hide ClearWrites, DecodeSuperblock, EncodeSuperblock, DirOk, Victims, Find, AfterDelete, Abs;
    var sb' := AfterDelete(s0.sb, Entries(s0.disk), n);
    var v := ClearWrites(s0.disk, done);
    var x := FsLayout.Write(0, EncodeSuperblock(sb'));
    var w := v + if flushed then [x] else [];
    if flushed {
      ApplyOne(s0.disk, v, x);
    } else {
      assert w == v;
    }
  }

  lemma EntryKind(disk: Disk, i: nat)
    requires DiskOk(disk) && i < FS_MAX_ENTRIES && Used(Entries(disk)[i])
    ensures Entries(disk)[i].kind == TYPE_FILE || Entries(disk)[i].kind == TYPE_DIR
  {
  }

  lemma FileOnDisk(disk: Disk, i: nat, k: u32)
    requires DiskOk(disk) && i < FS_MAX_ENTRIES && Entries(disk)[i].kind == TYPE_FILE
    requires k <= Entries(disk)[i].size
    ensures var e := Entries(disk)[i];
            var n := Blocks(k);
            && 512 * n >= k
            && (n > 0 ==> 512 * n < k + 512 && DATA_START + e.start + n <= |disk|)
            && |Content(disk, e)| == e.size
            && Region(disk, e.start, n)[..k] == Content(disk, e)[..k]
  {
    var e := Entries(disk)[i];
    RegionPrefix(disk, e.start, Blocks(k), Blocks(e.size));
  }

  /** `image` holds the blocks of `data`. */
  ghost predicate IsImage(image: seq<Block>, data: seq<u8>) {
    forall i {:trigger Chunk(data, i)} :: 0 <= i < |image| ==> 512 * i < |data| && image[i] == Chunk(data, i)
  }

  ghost predicate Writing(s0: Fs, n: Name, data: seq<u8>, start: nat) {
    && Usable(s0) && |data| <= MAX_FILE && start < 0x1_0000 && WriteAllowed(s0, n, data)
    && Allocates(Entries(s0.disk), Limit(|s0.disk|), |data|, start)
  }

  lemma WritingFacts(s0: Fs, n: Name, data: seq<u8>, start: nat)
    requires Writing(s0, n, data, start)
    ensures start < 0x1_0000 && Usable(s0) && |data| <= MAX_FILE && |s0.disk| >= DATA_START && s0.sb.dirStart == DIR_START
  {
  }

  lemma NothingWritten(s0: Fs, n: Name, data: seq<u8>)
    requires Usable(s0) && |data| <= MAX_FILE && !WriteAllowed(s0, n, data)
    ensures Effect(s0, [], FsRuns.WriteFile(n, data), false, s0, true)
  {
  }

  lemma ReadyToWrite(s0: Fs, n: Name, data: seq<u8>, start: nat)
    requires Writing(s0, n, data, start)
    ensures |Chunks(data)| == Blocks(|data|) && IsImage(Chunks(data), data)
    ensures Blocks(|data|) > 0 ==>
              512 * Blocks(|data|) < |data| + 512 && DATA_START + start + Blocks(|data|) <= |s0.disk|
    ensures DataWrites(start, data) == RunOfWrites(start, Chunks(data))
    ensures DataWrites(start, data)[..Blocks(|data|)] == DataWrites(start, data)
  {
  }

  lemma PlanIssues(s0: Fs, n: Name, data: seq<u8>, start: u16, w: seq<Write>, ok: bool, sb': DiskSuperblock)
    requires Writing(s0, n, data, start) && WriteIssuesAt(s0, n, data, start, w, ok, sb')
    ensures Issues(s0, FsRuns.WriteFile(n, data), w, ok, sb')
  {
  }

  lemma PlanClean(s0: Fs, n: Name, data: seq<u8>, w: seq<Write>, ok: bool, sb': DiskSuperblock)
    requires Usable(s0) && |data| <= MAX_FILE && |w| == Blocks(|data|) + 2
    ensures Clean(s0, Returned(FsRuns.WriteFile(n, data), w, ok, sb'))
  {
  }

  /** A prefix of the plan is a legal outcome. */
  lemma PlanStep(s0: Fs, n: Name, data: seq<u8>, start: u16, w: seq<Write>, ok: bool, sb': DiskSuperblock)
    requires Writing(s0, n, data, start) && WriteIssuesAt(s0, n, data, start, w, ok, sb')
    ensures var s1 := Fs(Apply(s0.disk, w), sb');
            Effect(s0, w, FsRuns.WriteFile(n, data), ok, s1, |w| == Blocks(|data|) + 2)
  {
    PlanIssues(s0, n, data, start, w, ok, sb');
    if |w| == Blocks(|data|) + 2 {
      PlanClean(s0, n, data, w, ok, sb');
    }
  }

  lemma DataOutcome(s0: Fs, n: Name, data: seq<u8>, start: u16, k: nat)
    requires Writing(s0, n, data, start) && k <= Blocks(|data|)
    ensures var w := DataWrites(start, data)[..k];
            var s1 := Fs(Apply(s0.disk, w), s0.sb);
            && Effect(s0, w, FsRuns.WriteFile(n, data), false, s1, false)
            && s1.disk[1] == s0.disk[1] && s1.disk[2] == s0.disk[2]
  {
    var slot := Find(Entries(s0.disk), n);
    PlanPrefixes(s0.disk, s0.sb, slot, start, data, k);
    if data == [] {
      assert DataWrites(start, data)[..k] == [];
    } else {
      DataPhase(s0.disk, start, Chunks(data), k);
    }
    PlanStep(s0, n, data, start, DataWrites(start, data)[..k], false, s0.sb);
  }

  /** What the switch writes on a disk whose data phase is done. */
  ghost function SwitchWrites(d1: Disk, slot: nat, e: DirEntry, flushed: bool, sb: DiskSuperblock): (w: seq<Write>)
    requires |d1| >= DATA_START && slot < FS_MAX_ENTRIES
  {
    [EntryWrite(d1, slot, e)] + if flushed then [FsLayout.Write(0, EncodeSuperblock(sb))] else []
  }

  lemma NoSwitch(s0: Fs, n: Name, data: seq<u8>, start: u16, reliable: bool)
    requires Writing(s0, n, data, start) && !reliable
    ensures var dw := DataWrites(start, data);
            Effect(s0, dw + [], FsRuns.WriteFile(n, data), false, Fs(Apply(s0.disk, dw), s0.sb), reliable)
  {
    var dw := DataWrites(start, data);
    DataOutcome(s0, n, data, start, |dw|);
    assert dw[..|dw|] == dw == dw + [];
  }

  lemma SameEntryWrite(s0: Fs, n: Name, data: seq<u8>, start: u16)
    requires Writing(s0, n, data, start)
    ensures var slot := Find(Entries(s0.disk), n);
            var d1 := Apply(s0.disk, DataWrites(start, data));
            var e := Rewritten(Entries(s0.disk)[slot], start, |data|);
            EntryWrite(d1, slot, e) == EntryWrite(s0.disk, slot, e) && Entries(d1) == Entries(s0.disk)
  {
    var dw := DataWrites(start, data);
    DataOutcome(s0, n, data, start, |dw|);
    assert dw[..|dw|] == dw;
    EntriesFrame(s0.disk, Apply(s0.disk, dw));
  }

  lemma Switched(s0: Fs, n: Name, data: seq<u8>, start: u16)
    requires Writing(s0, n, data, start)
    ensures var slot := Find(Entries(s0.disk), n);
            var d1 := Apply(s0.disk, DataWrites(start, data));
            var e := Rewritten(Entries(s0.disk)[slot], start, |data|);
            var d2 := Apply(d1, [EntryWrite(d1, slot, e)]);
            Entries(d2) == Entries(s0.disk)[slot := e]
  {
    var slot := Find(Entries(s0.disk), n);
    var d1 := Apply(s0.disk, DataWrites(start, data));
    SameEntryWrite(s0, n, data, start);
    EntryWriteEffect(d1, slot, Rewritten(Entries(s0.disk)[slot], start, |data|));
  }

  lemma SwitchedAndFlushed(s0: Fs, n: Name, data: seq<u8>, start: u16, flushed: bool, reliable: bool)
    requires Writing(s0, n, data, start) && (reliable ==> flushed)
    ensures var es := Entries(s0.disk);
            var slot := Find(es, n);
            var e := Rewritten(es[slot], start, |data|);
            var d1 := Apply(s0.disk, DataWrites(start, data));
            var d2 := Apply(d1, [EntryWrite(d1, slot, e)]);
            var sb' := s0.sb.(free := Recount(Entries(d2), s0.sb.total));
            var d3 := if flushed then d2[0 := EncodeSuperblock(sb')] else d2;
            var w := DataWrites(start, data) + SwitchWrites(d1, slot, e, flushed, sb');
            Effect(s0, w, FsRuns.WriteFile(n, data), true, Fs(d3, sb'), reliable)
  {
    var es := Entries(s0.disk);
    var slot := Find(es, n);
    var e := Rewritten(es[slot], start, |data|);
    var sb' := s0.sb.(free := Recount(es[slot := e], s0.sb.total));
    var d1 := Apply(s0.disk, DataWrites(start, data));
    var v := SwitchWrites(d1, slot, e, flushed, sb');
    SameEntryWrite(s0, n, data, start);
    Switched(s0, n, data, start);
    SwitchIsPlan(s0, n, data, start, flushed);
    PlanStep(s0, n, data, start, DataWrites(start, data) + v, true, sb');
    ApplyConcat(s0.disk, DataWrites(start, data), v);
    if flushed {
      ApplyOne(d1, [v[0]], v[1]);
      assert v == [v[0]] + [v[1]];
    } else {
      assert v == [v[0]];
    }
  }

  lemma SwitchIsPlan(s0: Fs, n: Name, data: seq<u8>, start: u16, flushed: bool)
    requires Writing(s0, n, data, start)
    ensures var es := Entries(s0.disk);
            var slot := Find(es, n);
            var e := Rewritten(es[slot], start, |data|);
            var sb' := s0.sb.(free := Recount(es[slot := e], s0.sb.total));
            var w := DataWrites(start, data) + SwitchWrites(s0.disk, slot, e, flushed, sb');
            && WriteIssuesAt(s0, n, data, start, w, true, sb')
            && |w| == Blocks(|data|) + (if flushed then 2 else 1)
  {
    PlanPrefixes(s0.disk, s0.sb, Find(Entries(s0.disk), n), start, data, 0);
  }

  /** `w` is what the call `ev` wrote on its way from `s0` to `s1`. */
  ghost predicate Effect(s0: Fs, w: seq<Write>, ev: Event, ok: bool, s1: Fs, reliable: bool)
    requires |s0.disk| >= DATA_START && s0.sb.total >= DATA_START
  {
    && s1.disk == Apply(s0.disk, w)
    && Issues(s0, ev, w, ok, s1.sb)
    && (reliable ==> Clean(s0, Returned(ev, w, ok, s1.sb)))
  }

  /** Without faults a write succeeds exactly when the map and the free blocks say so. */
  lemma Foreseen(s0: Fs, n: Name, data: seq<u8>, w: seq<Write>, ok: bool, s1: Fs, reliable: bool)
    requires Usable(s0) && |data| <= MAX_FILE && Effect(s0, w, FsRuns.WriteFile(n, data), ok, s1, reliable)
    ensures FsOk(s0) && reliable ==> (ok <==> MayWrite(s0, n, data))
  {
    hide DecodeSuperblock, Apply, MayWrite, DirOk, Issues, Clean;
    if FsOk(s0) && reliable {
      WriteSucceeds(s0, n, data, w, ok, s1.sb);
    }
  }

  lemma OneLogged(w: seq<Write>, k: nat)
    requires k < |w|
    ensures w[..k + 1] == w[..k] + [w[k]] && w[..0] == []
  {
  }
}
