/**
 Lives of a disk: mounts, formats, calls and crashes in any order, calls after a
 failed mount among them.
 */
module FsLives {
  import opened Machine
  import opened CString
  import opened FsLayout
  import opened FsSpec
  import opened FsDirectory
  import opened FsProtocol
  import opened FsRuns
  import opened FsFormat

  /** A device without power, or one that fs_init has been called on. */
  datatype Life = Off(disk: Disk) | On(fs: Fs)

  /** fs_init, whose format gets `k` of its writes done; a call, which a crash may cut short; or a loss of power between calls. */
  datatype Deed = Mount(k: nat) | Call(step: Step) | PowerOff

  function Target(ev: Event): (n: Name) {
    ev.name
  }

  /** Calls are made after a failed fs_init as well: only the device pointer is checked, and it is set. */
  ghost predicate Possible(l: Life, deed: Deed) {
    match deed
    case Mount(k) => l.Off? && Formattable(l.disk) && k <= 3
    case Call(step) => l.On? && Usable(l.fs) && Comparable(Entries(l.fs.disk), Target(step.ev)) && Legal(l.fs, step)
    case PowerOff => l.On?
  }

  /** A format that fails leaves its superblock in memory. */
  function Mounted(disk: Disk, k: nat): (l: Life)
    requires Formattable(disk) && k <= 3
  {
    if HasMagic(disk) then On(Fs(disk, DecodeSuperblock(disk[0]))) else On(Fs(FormatTo(disk, k), FormatSb(|disk|)))
  }

  /** The block writes of a call that went through. */
  function Done(step: Step): (w: seq<Write>) {
    if step.Crashed? && step.k <= |step.w| then step.w[..step.k] else step.w
  }

  ghost function After(l: Life, deed: Deed): (r: Life)
    requires Possible(l, deed)
  {
    match deed
    case Mount(k) => Mounted(l.disk, k)
    case Call(step) => if step.Crashed? then Off(Apply(l.fs.disk, Done(step))) else On(Next(l.fs, step))
    case PowerOff => Off(l.fs.disk)
  }

  /** The next mount is sound; and a disk that carries the magic number is consistent with the superblock in memory. */
  ghost predicate LifeOk(l: Life) {
    match l
    case Off(disk) => Mountable(disk)
    case On(fs) => Usable(fs) && (HasMagic(fs.disk) ==> FsOk(fs))
  }

  /** The directory a write leaves will do: with the target emptied, the old one would. */
  ghost predicate WriteSeals(s: Fs, n: Name, data: seq<u8>, step: Step)
    requires Usable(s)
  {
    var es := Entries(s.disk);
    |data| <= MAX_FILE && WriteAllowed(s, n, data) && |Done(step)| == Blocks(|data|) + 2 ==>
      DirOk(es[Find(es, n) := Rewritten(es[Find(es, n)], 0, 0)], Limit(|s.disk|))
  }

  /** The directory a delete leaves will do. */
  ghost predicate DeleteSeals(s: Fs, n: Name, done: seq<nat>, step: Step)
    requires Usable(s)
  {
    Find(Entries(s.disk), n) < FS_MAX_ENTRIES && |Done(step)| > |done| ==> DirOk(Cleared(Entries(s.disk), done), Limit(|s.disk|))
  }

  /** On a disk that has no magic number yet, a call that flushes the superblock needs a directory that will do. */
  ghost predicate SealsWell(s: Fs, step: Step)
    requires Usable(s)
  {
    match step.ev
    case Create(_, _) => true
    case WriteFile(n, data) => WriteSeals(s, n, data, step)
    case Delete(n, done) => DeleteSeals(s, n, done, step)
  }

  /**
   The deeds that keep a disk sound: all but a format cut short over a directory
   that will not do, and a call that writes the magic number over such a directory
   after a format that wrote nothing.
   */
  ghost predicate Safe(l: Life, deed: Deed)
    requires Possible(l, deed)
  {
    match deed
    case Mount(k) => HasMagic(l.disk) || k == 0 || LeftOk(l.disk, k)
    case Call(step) => HasMagic(l.fs.disk) || SealsWell(l.fs, step)
    case PowerOff => true
  }

  // ----- Mounting

  lemma MountExact(disk: Disk, k: nat)
    requires Mountable(disk) && k <= 3
    ensures LifeOk(Mounted(disk, k)) <==> HasMagic(disk) || k == 0 || LeftOk(disk, k)
  {
    hide EncodeSuperblock, DecodeSuperblock, DirOk;
    if !HasMagic(disk) {
      FormatEntries(disk, k);
    }
  }

  // ----- Calls on a disk that has no magic number yet

  lemma UnsealedCreate(s: Fs, step: Step)
    requires Usable(s) && !HasMagic(s.disk) && Legal(s, step) && step.ev.Create?
    ensures !HasMagic(Apply(s.disk, Done(step)))
  {
    hide DecodeSuperblock, EntryWrite;
    var w := Done(step);
    if w == [] {
      assert Apply(s.disk, w) == s.disk;
    } else {
      var Create(name, kind) := step.ev;
      var slot := FreeSlot(Entries(s.disk));
      EntryWriteEffect(s.disk, slot, NewEntry(name, kind));
      assert w == [EntryWrite(s.disk, slot, NewEntry(name, kind))];
    }
  }

  /** With a fresh extent, the new size of a file decides nothing: the directory is as consistent as with the file emptied. */
  lemma RewriteOk(es: seq<DirEntry>, limit: nat, slot: nat, start: u16, size: u32)
    requires slot < |es| && es[slot].kind == TYPE_FILE && size <= MAX_FILE
    requires if size == 0 then start == 0 else start + Blocks(size) <= limit && FreeRun(es, start, Blocks(size))
    ensures DirOk(es[slot := Rewritten(es[slot], start, size)], limit) <==> DirOk(es[slot := Rewritten(es[slot], 0, 0)], limit)
  {
    var a, b := es[slot := Rewritten(es[slot], start, size)], es[slot := Rewritten(es[slot], 0, 0)];
    assert forall i :: 0 <= i < |es| ==> (Used(a[i]) <==> Used(b[i])) && a[i].name == b[i].name;
    assert forall i :: 0 <= i < |es| && i != slot ==> a[i] == b[i] == es[i];
    assert EntryOk(a[slot], limit) <==> EntryOk(b[slot], limit);
    assert forall c: nat :: !Covers(b[slot], c);
    if DirOk(b, limit) {
      forall i, j, c: nat | 0 <= i < j < |a| && Covers(a[i], c) ensures !Covers(a[j], c) {
      }
    }
    if DirOk(a, limit) {
      forall i, j, c: nat | 0 <= i < j < |b| && Covers(b[i], c) ensures !Covers(b[j], c) {
        assert Covers(a[i], c);
      }
    }
  }

  lemma UnsealedWrite(s: Fs, step: Step)
    requires Usable(s) && !HasMagic(s.disk) && Legal(s, step) && step.ev.WriteFile? && Comparable(Entries(s.disk), step.ev.name)
    ensures LifeOk(After(On(s), Call(step))) <==> WriteSeals(s, step.ev.name, step.ev.data, step)
    ensures Mountable(Apply(s.disk, Done(step))) <==> WriteSeals(s, step.ev.name, step.ev.data, step)
  {
    hide DecodeSuperblock, EncodeSuperblock, DirOk, EntryAt, Recount, UsedBlocks, Apply, WritePlan, Fits, Find, FreeRun, Blocks;
    var WriteFile(name, data) := step.ev;
    var w := Done(step);
    if WriteAllowed(s, name, data) {
      var start :| WriteIssuesAt(s, name, data, start, step.w, step.ok, step.sb');
      assert w == WritePlan(s.disk, s.sb, Find(Entries(s.disk), name), start, data)[..|w|];
      PlanShape(s, name, data, start, |w|);
      RewriteOk(Entries(s.disk), Limit(|s.disk|), Find(Entries(s.disk), name), start, |data|);
    } else {
      NothingApplied(s.disk, w);
    }
  }

  lemma NothingApplied(disk: Disk, w: seq<Write>)
    requires w == []
    ensures Apply(disk, w) == disk
  {
  }

  lemma UnsealedDelete(s: Fs, step: Step)
    requires Usable(s) && !HasMagic(s.disk) && Legal(s, step) && step.ev.Delete? && Comparable(Entries(s.disk), step.ev.name)
    ensures LifeOk(After(On(s), Call(step))) <==> DeleteSeals(s, step.ev.name, step.ev.done, step)
    ensures Mountable(Apply(s.disk, Done(step))) <==> DeleteSeals(s, step.ev.name, step.ev.done, step)
  {
    hide DecodeSuperblock, EncodeSuperblock, DirOk, EntryAt, Apply, Find, ClearWrites, Cleared, Freed, Victims;
    var Delete(name, done) := step.ev;
    var w := Done(step);
    if Find(Entries(s.disk), name) == FS_MAX_ENTRIES {
      NothingApplied(s.disk, w);
    } else {
      DeletePrefix(s, name, done, step.w, step.ok, step.sb', |w|);
      assert w == step.w[..|w|];
    }
  }

  /** A call on such a disk keeps it sound exactly when it seals well. */
  lemma UnsealedExact(s: Fs, step: Step)
    requires Usable(s) && !HasMagic(s.disk) && Possible(On(s), Call(step))
    ensures LifeOk(After(On(s), Call(step))) <==> SealsWell(s, step)
    ensures Mountable(Apply(s.disk, Done(step))) <==> SealsWell(s, step)
  {
    hide DecodeSuperblock, DirOk, EntryAt, WriteSeals, DeleteSeals, Apply;
    match step.ev
    case Create(_, _) => UnsealedCreate(s, step);
    case WriteFile(_, _) => UnsealedWrite(s, step);
    case Delete(_, _) => UnsealedDelete(s, step);
  }

  lemma EmptiedOk(es: seq<DirEntry>, limit: nat, slot: nat)
    requires DirOk(es, limit) && slot < |es| && es[slot].kind == TYPE_FILE
    ensures DirOk(es[slot := Rewritten(es[slot], 0, 0)], limit)
  {
    var b := es[slot := Rewritten(es[slot], 0, 0)];
    assert forall c: nat :: !Covers(b[slot], c);
    forall i, j, c: nat | 0 <= i < j < |b| && Covers(b[i], c) ensures !Covers(b[j], c) {
      assert Covers(es[i], c);
    }
  }

  /** A consistent directory is enough for every call to seal well. */
  lemma ConsistentSeals(s: Fs, step: Step)
    requires Usable(s) && Legal(s, step) && DirOk(Entries(s.disk), Limit(|s.disk|))
    ensures SealsWell(s, step)
  {
    hide DirOk, Entries, Find, Cleared, Issues, Fits, Done;
    var es := Entries(s.disk);
    match step.ev
    case Create(_, _) =>
    case WriteFile(n, data) =>
      if |data| <= MAX_FILE && WriteAllowed(s, n, data) {
        EmptiedOk(es, Limit(|s.disk|), Find(es, n));
      }
    case Delete(n, done) => ClearedOk(es, Limit(|s.disk|), done);
  }

  // ----- Whole lives

  lemma CallKeeps(s: Fs, step: Step)
    requires FsOk(s) && Possible(On(s), Call(step))
    ensures LifeOk(After(On(s), Call(step)))
  {
    hide DecodeSuperblock, DirOk, Legal, Apply;
    StepRefines(s, step);
    FsOkUsable(Next(s, step), []);
  }

  /** One deed keeps a sound disk sound exactly when it is safe. */
  lemma DeedExact(l: Life, deed: Deed)
    requires LifeOk(l) && Possible(l, deed)
    ensures LifeOk(After(l, deed)) <==> Safe(l, deed)
  {
    match deed
    case Mount(k) => MountExact(l.disk, k);
    case Call(step) =>
      if HasMagic(l.fs.disk) {
        CallKeeps(l.fs, step);
      } else {
        UnsealedExact(l.fs, step);
      }
    case PowerOff =>
  }

  ghost predicate IsLife(ls: seq<Life>, deeds: seq<Deed>) {
    && |ls| == |deeds| + 1
    && forall i :: 0 <= i < |deeds| ==> Possible(ls[i], deeds[i]) && ls[i + 1] == After(ls[i], deeds[i])
  }

  /**
   A disk stays sound through a whole life of mounts, formats, calls, failed
   writes and crashes exactly when every deed was safe.
   */
  lemma {:induction false} LifeExact(ls: seq<Life>, deeds: seq<Deed>, n: nat)
    requires IsLife(ls, deeds) && LifeOk(ls[0]) && n <= |deeds|
    ensures (forall i :: 0 <= i <= n ==> LifeOk(ls[i])) <==> (forall i :: 0 <= i < n ==> Safe(ls[i], deeds[i]))
  {
    hide LifeOk, Safe, After;
    if n > 0 {
      LifeExact(ls, deeds, n - 1);
      assert ls[n] == After(ls[n - 1], deeds[n - 1]);
      if LifeOk(ls[n - 1]) {
        DeedExact(ls[n - 1], deeds[n - 1]);
      }
    }
  }

  // ----- A life that ends badly although every mount was safe

  const LOG: Name := [97]

  function LogEntry(): (e: DirEntry)
    ensures Str(e.name) == LOG && e.kind == TYPE_FILE
  {
    var e := NewEntry(LOG, TYPE_FILE);
    assert e.name[1] == 0;
    StrAt(e.name, 1);
    assert e.name[..1] == LOG;
    e
  }

  /** fs_create of the file, the way klog_flush makes its log file. */
  function LogCreated(): (step: Step) {
    Returned(Create(LOG, TYPE_FILE), [EntryWrite(StaleDisk(), 1, LogEntry())], true, FormatSb(3))
  }

  function WithLog(): (disk: Disk)
    ensures |disk| == 3
  {
    Apply(StaleDisk(), [EntryWrite(StaleDisk(), 1, LogEntry())])
  }

  /** An empty fs_write_file to it: the directory write and the flush. */
  function LogWritten(): (step: Step) {
    var sb' := FormatSb(3).(free := Recount(Entries(WithLog())[1 := LogEntry()], 3));
    Returned(WriteFile(LOG, []), WritePlan(WithLog(), FormatSb(3), 1, 0, []), true, sb')
  }

  lemma StaleEntries()
    ensures var es := Entries(StaleDisk());
            es[0].kind == 9 && Str(es[0].name) == [] && forall i :: 1 <= i < FS_MAX_ENTRIES ==> !Used(es[i])
  {
    var disk := StaleDisk();
    forall i | 1 <= i < FS_MAX_ENTRIES ensures !Used(EntryAt(disk, i)) {
      var o := EntryOffset(i);
      if i < 16 {
        assert disk[1][o..o + ENTRY_BYTES] == Zeros(512)[o..o + ENTRY_BYTES];
      }
      ZeroEntry(o);
    }
    assert EntryOffset(0) == 0 && EntryBlock(0) == 1;
    var e := EntryAt(disk, 0);
    assert disk[1][0..32][..24] == Zeros(24);
    assert e.name == Zeros(24) && e.name[0] == 0;
  }

  lemma LogEntries()
    ensures var es := Entries(WithLog());
            es[0].kind == 9 && Find(es, LOG) == 1 && es[1] == LogEntry() && WithLog()[0] == Zeros(512)
    ensures FreeSlot(Entries(StaleDisk())) == 1 && Find(Entries(StaleDisk()), LOG) == FS_MAX_ENTRIES
  {
    hide EntryAt, EntryWrite, LogEntry;
    StaleEntries();
    EntryWriteEffect(StaleDisk(), 1, LogEntry());
    var es := Entries(WithLog());
    assert es == Entries(StaleDisk())[1 := LogEntry()];
    assert Named(es[1], LOG) && !Named(es[0], LOG);
  }

  ghost function BadDeeds(): (deeds: seq<Deed>) {
    [Mount(0), Call(LogCreated()), Call(LogWritten())]
  }

  function BadLife(): (ls: seq<Life>) {
    [Off(StaleDisk()), On(Fs(StaleDisk(), FormatSb(3))), On(Fs(WithLog(), FormatSb(3))),
     On(Fs(Apply(WithLog(), LogWritten().w), LogWritten().sb'))]
  }

  lemma BadSteps()
    ensures Legal(Fs(StaleDisk(), FormatSb(3)), LogCreated()) && Legal(Fs(WithLog(), FormatSb(3)), LogWritten())
    ensures !WriteSeals(Fs(WithLog(), FormatSb(3)), LOG, [], LogWritten())
  {
    hide EntryAt, EntryWrite, LogEntry, WithLog, StaleDisk, WritePlan, DecodeSuperblock, EncodeSuperblock, DirOk, Find, FreeSlot, Recount;
    LogEntries();
    LogIsNew();
    var s := Fs(WithLog(), FormatSb(3));
    assert Blocks(0) == 0;
    assert WriteAllowed(s, LOG, []);
    assert WriteIssuesAt(s, LOG, [], 0, LogWritten().w, true, LogWritten().sb');
    UnknownKind(Entries(s.disk)[1 := Rewritten(Entries(s.disk)[1], 0, 0)], Limit(3), 0);
  }

  lemma LogIsNew()
    ensures NewEntry(LOG, TYPE_FILE) == LogEntry() && Rewritten(LogEntry(), 0, 0) == LogEntry()
  {
  }

  lemma BadLifeGoes()
    ensures IsLife(BadLife(), BadDeeds()) && LifeOk(BadLife()[0]) && Safe(BadLife()[0], BadDeeds()[0])
  {
    hide EntryAt, EntryWrite, LogEntry, StaleDisk, Entries, EncodeSuperblock, DecodeSuperblock, DirOk, Legal, FormatTo, Apply;
    hide WritePlan, Recount;
    StaleDirectory();
    FormatNone(StaleDisk());
    BadSteps();
    LogNames();
    var ls, deeds := BadLife(), BadDeeds();
    assert ls[1] == Mounted(StaleDisk(), 0);
    assert Possible(ls[1], deeds[1]) && ls[2] == After(ls[1], deeds[1]);
    assert Possible(ls[2], deeds[2]) && ls[3] == After(ls[2], deeds[2]);
  }

  /**
   Every mount of this life is safe: the only one writes nothing. The calls after
   it return success, and the last leaves the magic number over a directory that
   will not do.
   */
  lemma SafeMountsAreNotEnough()
    ensures var ls := BadLife();
            var deeds := BadDeeds();
            && IsLife(ls, deeds) && LifeOk(ls[0]) && Safe(ls[0], deeds[0]) && LogCreated().ok && LogWritten().ok
            && !LifeOk(ls[3]) && !Mountable(ls[3].fs.disk)
  {
    hide WithLog, Legal, DirOk, DecodeSuperblock, Apply, WriteSeals, FormatTo, StaleDisk, Entries, IsLife, WritePlan, Recount;
    hide Possible, LifeOk, Safe, Mountable;
    BadLifeGoes();
    BadEnd();
  }

  lemma BadEnd()
    ensures !LifeOk(BadLife()[3]) && !Mountable(BadLife()[3].fs.disk)
  {
    hide WithLog, Legal, DirOk, DecodeSuperblock, Apply, WriteSeals, FormatTo, StaleDisk, Entries, WritePlan, Recount, LifeOk;
    hide Mountable, HasMagic, EntryWrite, LogEntry;
    var s := Fs(WithLog(), FormatSb(3));
    BadSteps();
    LogEntries();
    LogNames();
    NoMagic(s.disk);
    UnsealedExact(s, LogWritten());
  }

  lemma LogNames()
    ensures Comparable(Entries(StaleDisk()), LOG) && Comparable(Entries(WithLog()), LOG)
  {
  }

  lemma NoMagic(disk: Disk)
    requires |disk| > 0 && disk[0] == Zeros(512)
    ensures !HasMagic(disk)
  {
    assert disk[0][0..4] == Zeros(4);
    assert FromLe32(Zeros(4)) == 0;
  }

  // ----- What a life means

  /** What calls show, or would show. */
  function Shown(l: Life): (m: map<Name, Node>)
    requires l.Off? ==> |l.disk| >= DATA_START
    requires l.On? ==> |l.fs.disk| >= DATA_START
  {
    match l
    case Off(disk) => Abs(disk)
    case On(fs) => Abs(fs.disk)
  }

  /** Mounting shows what is on a disk with the magic number and empties any other; only a format cut short brings old entries back. */
  ghost predicate Refines(l: Life, deed: Deed, r: Life)
    requires LifeOk(l) && LifeOk(r) && Possible(l, deed)
  {
    match deed
    case Mount(k) =>
      if HasMagic(l.disk) then Shown(r) == Shown(l)
      else if k == 3 then Shown(r) == map[]
      else Shown(r).Keys == Names(Wiped(Entries(l.disk), k))
    case Call(step) => DirOk(Entries(l.fs.disk), Limit(|l.fs.disk|)) ==> AbstractStep(Shown(l), step, Shown(r))
    case PowerOff => Shown(r) == Shown(l)
  }

  /** The same file system with the superblock written out. */
  function Sealed(s: Fs): (r: Fs)
    requires |s.disk| > 0
  {
    Fs(s.disk[0 := EncodeSuperblock(s.sb)], s.sb)
  }

  /** The disks differ in block 0 at most. */
  predicate SameAbove(d: Disk, d': Disk) {
    |d| == |d'| >= DATA_START && forall b :: 0 < b < |d| ==> d[b] == d'[b]
  }

  lemma SameAboveShows(d: Disk, d': Disk)
    requires SameAbove(d, d')
    ensures Entries(d) == Entries(d') && Abs(d) == Abs(d')
  {
    hide EntryAt, Find;
    EntriesFrame(d, d');
    assert forall b: nat :: DataBlock(d, b) == DataBlock(d', b);
    forall n ensures View(d, n) == View(d', n) {
      SameNodes(d, d', n);
    }
    AbsEqual(d, Abs(d'));
  }

  lemma SameNodes(d: Disk, d': Disk, n: Name)
    requires |d| >= DATA_START && |d'| >= DATA_START && Entries(d) == Entries(d')
    requires forall b: nat :: DataBlock(d, b) == DataBlock(d', b)
    ensures View(d, n) == View(d', n)
  {
    var es := Entries(d);
    var i := Find(es, n);
    if i < |es| {
      RegionFrame(d, d', es[i].start, Blocks(es[i].size));
    }
  }

  lemma {:induction false} SameAboveApply(d: Disk, d': Disk, w: seq<Write>)
    requires SameAbove(d, d')
    ensures SameAbove(Apply(d, w), Apply(d', w))
  {
    if w != [] {
      SameAboveApply(d, d', w[..|w| - 1]);
    }
  }

  lemma {:induction false} SameClears(d: Disk, d': Disk, todo: seq<nat>)
    requires SameAbove(d, d') && forall i :: 0 <= i < |todo| ==> todo[i] < FS_MAX_ENTRIES
    ensures ClearWrites(d, todo) == ClearWrites(d', todo)
  {
    if todo != [] {
      var n := |todo| - 1;
      SameClears(d, d', todo[..n]);
      var w := ClearWrites(d, todo[..n]);
      SameAboveApply(d, d', w);
      EntriesFrame(Apply(d, w), Apply(d', w));
    }
  }

  lemma SealedIssues(s: Fs, ev: Event, w: seq<Write>, ok: bool, sb': DiskSuperblock)
    requires Usable(s) && Issues(s, ev, w, ok, sb')
    ensures Issues(Sealed(s), ev, w, ok, sb')
  {
    hide EncodeSuperblock, EntryAt, EntryWrite, Find, ClearWrites, Victims, Recount;
    var r := Sealed(s);
    assert SameAbove(s.disk, r.disk);
    EntriesFrame(s.disk, r.disk);
    match ev
    case Create(_, _) =>
    case WriteFile(name, data) =>
      if WriteAllowed(s, name, data) {
        var start :| WriteIssuesAt(s, name, data, start, w, ok, sb');
        assert WriteIssuesAt(r, name, data, start, w, ok, sb');
      }
    case Delete(name, done) =>
      if Find(Entries(s.disk), name) < FS_MAX_ENTRIES {
        SameClears(s.disk, r.disk, done);
      }
  }

  lemma SealedOk(s: Fs)
    requires Usable(s) && DirOk(Entries(s.disk), Limit(|s.disk|))
    ensures FsOk(Sealed(s)) && SameAbove(s.disk, Sealed(s).disk)
  {
    hide EncodeSuperblock, DecodeSuperblock, DirOk, EntryAt;
    SuperblockRoundTrip(s.sb);
    EntriesFrame(s.disk, Sealed(s).disk);
  }

  /** Over a consistent directory a call means the same whether or not the magic number is on the disk. */
  lemma CallMeans(s: Fs, step: Step)
    requires Usable(s) && DirOk(Entries(s.disk), Limit(|s.disk|)) && Possible(On(s), Call(step))
    ensures AbstractStep(Abs(s.disk), step, Shown(After(On(s), Call(step))))
  {
    hide EncodeSuperblock, DecodeSuperblock, DirOk, Issues, Apply, Abs, Committed, CrashState, Entries;
    var r := Sealed(s);
    SealedOk(s);
    SealedIssues(s, step.ev, step.w, step.ok, step.sb');
    StepRefines(r, step);
    var w := Done(step);
    SameAboveApply(s.disk, r.disk, w);
    SameAboveShows(s.disk, r.disk);
    SameAboveShows(Apply(s.disk, w), Apply(r.disk, w));
  }

  lemma DeedRefines(l: Life, deed: Deed)
    requires LifeOk(l) && Possible(l, deed) && Safe(l, deed)
    ensures LifeOk(After(l, deed)) && Refines(l, deed, After(l, deed))
  {
    hide EncodeSuperblock, DecodeSuperblock, DirOk, Legal, AbstractStep, Safe, Apply;
    DeedExact(l, deed);
    match deed
    case Mount(k) =>
      if !HasMagic(l.disk) {
        FormatEntries(l.disk, k);
        if k == 3 {
          FormattedDisk(l.disk);
        }
      }
    case Call(step) =>
      if DirOk(Entries(l.fs.disk), Limit(|l.fs.disk|)) {
        CallMeans(l.fs, step);
      }
    case PowerOff =>
  }

  /** Every safe life, from any sound disk, refines the abstract map deed by deed. */
  lemma LifeRefines(ls: seq<Life>, deeds: seq<Deed>, i: nat)
    requires IsLife(ls, deeds) && LifeOk(ls[0]) && i < |deeds|
    requires forall j :: 0 <= j < |deeds| ==> Safe(ls[j], deeds[j])
    ensures LifeOk(ls[i]) && LifeOk(ls[i + 1]) && Refines(ls[i], deeds[i], ls[i + 1])
  {
    hide LifeOk, Safe, After, Refines;
    LifeExact(ls, deeds, i);
    DeedRefines(ls[i], deeds[i]);
  }
}
