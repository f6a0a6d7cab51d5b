/**
 Runs of SimpleFS calls with failing block writes, crashes and remounts,
 against the abstract map from names to nodes.
 */
module FsRuns {
  import opened Machine
  import opened FsLayout
  import opened FsSpec
  import opened FsAccounting
  import opened FsDirectory
  import opened FsProtocol

  /** A call. `done` lists the slots whose clearing write went through. */
  datatype Event =
    | Create(name: Name, kind: u8)
    | WriteFile(name: Name, data: seq<u8>)
    | Delete(name: Name, done: seq<nat>)

  // ----- What one call may write (concrete side)

  ghost predicate CreateIssues(s: Fs, name: Name, kind: u8, w: seq<Write>, ok: bool, sb': DiskSuperblock)
    requires |s.disk| >= DATA_START
  {
    var es := Entries(s.disk);
    && sb' == s.sb
    && if CreateAllowed(es, name, kind)
       then w == if ok then [EntryWrite(s.disk, FreeSlot(es), NewEntry(name, kind))] else []
       else !ok && w == []
  }

  /** The extent `fs_write_file` picks: block 0 for an empty file, else the first fit. */
  ghost predicate Allocates(es: seq<DirEntry>, limit: nat, size: u32, start: nat) {
    if size == 0 then start == 0 else FirstFit(es, limit, Blocks(size), start)
  }

  /** Whether `fs_write_file` reaches its first block write. */
  ghost predicate WriteAllowed(s: Fs, name: Name, data: seq<u8>)
    requires |s.disk| >= DATA_START && |data| <= MAX_FILE
  {
    var es := Entries(s.disk);
    && Find(es, name) < |es| && es[Find(es, name)].kind == TYPE_FILE
    && (data != [] ==> Blocks(|data|) <= s.sb.free && Fits(es, Limit(|s.disk|), Blocks(|data|)))
  }

  /** A prefix of the plan up to a failed write; a failed superblock flush is not reported. */
  ghost predicate WriteIssuesAt(s: Fs, name: Name, data: seq<u8>, start: u16, w: seq<Write>, ok: bool, sb': DiskSuperblock)
    requires |s.disk| >= DATA_START && s.sb.total >= DATA_START && |data| <= MAX_FILE
    requires Find(Entries(s.disk), name) < FS_MAX_ENTRIES
  {
    var es := Entries(s.disk);
    var slot := Find(es, name);
    && Allocates(es, Limit(|s.disk|), |data|, start)
    && w <= WritePlan(s.disk, s.sb, slot, start, data)
    && (ok <==> |w| > Blocks(|data|))
    && sb' == (if ok then s.sb.(free := Recount(es[slot := Rewritten(es[slot], start, |data|)], s.sb.total)) else s.sb)
  }

  ghost predicate WriteIssues(s: Fs, name: Name, data: seq<u8>, w: seq<Write>, ok: bool, sb': DiskSuperblock)
    requires |s.disk| >= DATA_START && s.sb.total >= DATA_START && |data| <= MAX_FILE
  {
    if WriteAllowed(s, name, data)
    then exists start :: WriteIssuesAt(s, name, data, start, w, ok, sb')
    else !ok && w == [] && sb' == s.sb
  }

  /** The superblock after a delete: the count grows by the blocks of all victims. */
  function AfterDelete(sb: DiskSuperblock, es: seq<DirEntry>, n: Name): (r: DiskSuperblock)
    requires Find(es, n) < |es|
  {
    sb.(free := Wrap32(sb.free + Freed(es, Victims(es, n))))
  }

  /** Failed clears of children are skipped; the count is adjusted for all of them. */
  ghost predicate DeleteIssues(s: Fs, name: Name, done: seq<nat>, w: seq<Write>, ok: bool, sb': DiskSuperblock)
    requires |s.disk| >= DATA_START
  {
    var es := Entries(s.disk);
    var slot := Find(es, name);
    if slot == |es| then
      !ok && w == [] && done == [] && sb' == s.sb
    else
      && (forall i :: 0 <= i < |done| ==> done[i] < |es|)
      && (forall i :: i in done ==> i in Victims(es, name))
      && (ok <==> slot in done)
      && sb' == (if ok then AfterDelete(s.sb, es, name) else s.sb)
      && (w == ClearWrites(s.disk, done)
          || (ok && w == ClearWrites(s.disk, done) + [Write(0, EncodeSuperblock(sb'))]))
  }

  /** Every outcome of a call on a mounted disk of at least three blocks. */
  ghost predicate Issues(s: Fs, ev: Event, w: seq<Write>, ok: bool, sb': DiskSuperblock)
    requires |s.disk| >= DATA_START && s.sb.total >= DATA_START
  {
    match ev
    case Create(name, kind) => CreateIssues(s, name, kind, w, ok, sb')
    case WriteFile(name, data) => |data| <= MAX_FILE && WriteIssues(s, name, data, w, ok, sb')
    case Delete(name, done) => DeleteIssues(s, name, done, w, ok, sb')
  }

  // ----- What a call means (abstract side)

  /** Names a delete of `n` is meant to remove. */
  predicate Doomed(m: map<Name, Node>, n: Name, k: Name) {
    k == n || (n in m && m[n].Dir? && n + [47] <= k)
  }

  /** Some of the doomed names are gone; nothing else has changed. */
  ghost predicate PartlyDeleted(m: map<Name, Node>, n: Name, m': map<Name, Node>) {
    && (forall k :: k in m' ==> k in m && m'[k] == m[k])
    && (forall k :: k in m && !Doomed(m, n, k) ==> k in m')
  }

  function WithoutDoomed(m: map<Name, Node>, n: Name): (r: map<Name, Node>) {
    map k | k in m && !Doomed(m, n, k) :: m[k]
  }

  /** What a completed call did to the abstract map. */
  ghost predicate Committed(m: map<Name, Node>, ev: Event, ok: bool, m': map<Name, Node>) {
    match ev
    case Create(name, kind) =>
      if ok then name !in m && m' == m[name := NodeOfKind(kind)] else m' == m
    case WriteFile(name, data) =>
      if ok then name in m && m[name].File? && m' == m[name := File(data)] else m' == m
    case Delete(name, _) =>
      && PartlyDeleted(m, name, m')
      && (if ok then name in m && name !in m' else name in m ==> name in m')
  }

  /** What a call cut short by a crash may have done. */
  ghost predicate CrashState(m: map<Name, Node>, ev: Event, m': map<Name, Node>) {
    match ev
    case Create(name, kind) => m' == m || m' == m[name := NodeOfKind(kind)]
    case WriteFile(name, data) => m' == m || m' == m[name := File(data)]
    case Delete(name, _) => PartlyDeleted(m, name, m')
  }

  // ----- One call

  lemma CreateRefines(s: Fs, name: Name, kind: u8, w: seq<Write>, ok: bool, sb': DiskSuperblock)
    requires FsOk(s) && CreateIssues(s, name, kind, w, ok, sb')
    ensures FsOk(Fs(Apply(s.disk, w), sb'))
    ensures Committed(Abs(s.disk), Create(name, kind), ok, Abs(Apply(s.disk, w)))
  {
    if ok {
      CreateEffect(s.disk, name, kind);
      assert Find(Entries(s.disk), name) == |Entries(s.disk)|;
    }
  }

  lemma AllocationIsFree(s: Fs, name: Name, data: seq<u8>, start: u16)
    requires FsOk(s) && |data| <= MAX_FILE && WriteAllowed(s, name, data)
    requires Allocates(Entries(s.disk), Limit(|s.disk|), |data|, start)
    ensures CanWrite(s.disk, s.sb, name, Find(Entries(s.disk), name), start, data)
  {
  }

  /** Any prefix of what `fs_write_file` issued is a prefix of its plan. */
  lemma WritePrefix(s: Fs, name: Name, data: seq<u8>, start: u16, w: seq<Write>, ok: bool, sb': DiskSuperblock, k: nat)
    requires FsOk(s) && |data| <= MAX_FILE && WriteAllowed(s, name, data) && k <= |w|
    requires WriteIssuesAt(s, name, data, start, w, ok, sb')
    ensures var d := Apply(s.disk, w[..k]);
            && DiskOk(d) && SbAgrees(s.sb, d)
            && Abs(d) == if k <= Blocks(|data|) then Abs(s.disk) else Abs(s.disk)[name := File(data)]
  {
    var slot := Find(Entries(s.disk), name);
    AllocationIsFree(s, name, data, start);
    assert w[..k] == WritePlan(s.disk, s.sb, slot, start, data)[..k];
    CrashAtomicity(s.disk, s.sb, name, slot, start, data, k);
  }

  /** The directory and block 0 after `k` writes of the plan, whatever state the directory is in. */
  lemma PlanShape(s: Fs, name: Name, data: seq<u8>, start: u16, k: nat)
    requires Usable(s) && |data| <= MAX_FILE && WriteAllowed(s, name, data) && k <= Blocks(|data|) + 2
    requires Allocates(Entries(s.disk), Limit(|s.disk|), |data|, start)
    ensures var es := Entries(s.disk);
            var slot := Find(es, name);
            var d := Apply(s.disk, WritePlan(s.disk, s.sb, slot, start, data)[..k]);
            var after := es[slot := Rewritten(es[slot], start, |data|)];
            && (k <= Blocks(|data|) ==> Entries(d) == es) && (k > Blocks(|data|) ==> Entries(d) == after)
            && (k <= Blocks(|data|) + 1 ==> d[0] == s.disk[0])
            && (k == Blocks(|data|) + 2 ==> DecodeSuperblock(d[0]) == s.sb.(free := Recount(after, s.sb.total)))
  {
    hide DecodeSuperblock, EncodeSuperblock, EntryAt, EntryWrite, Find, Recount, Chunk;
    var es := Entries(s.disk);
    var slot := Find(es, name);
    var nb := Blocks(|data|);
    var w := WritePlan(s.disk, s.sb, slot, start, data);
    PlanPrefixes(s.disk, s.sb, slot, start, data, k);
    DataKept(s, data, start, if k <= nb then k else nb);
    if k > nb {
      var dw := DataWrites(start, data);
      var d1 := Apply(s.disk, dw);
      assert dw[..nb] == dw;
      EntriesFrame(s.disk, d1);
      ApplyConcat(s.disk, dw, [w[nb]]);
      EntryWriteEffect(d1, slot, Rewritten(es[slot], start, |data|));
      if k == nb + 2 {
        var d2 := Apply(s.disk, w[..nb + 1]);
        ApplyOne(s.disk, w[..nb + 1], w[nb + 1]);
        SuperblockRoundTrip(s.sb.(free := Recount(es[slot := Rewritten(es[slot], start, |data|)], s.sb.total)));
        EntriesFrame(d2, Apply(s.disk, w[..nb + 2]));
      }
    }
  }

  lemma DataKept(s: Fs, data: seq<u8>, start: u16, k: nat)
    requires Usable(s) && |data| <= MAX_FILE && k <= Blocks(|data|)
    requires Allocates(Entries(s.disk), Limit(|s.disk|), |data|, start)
    ensures var d := Apply(s.disk, DataWrites(start, data)[..k]);
            d[0] == s.disk[0] && d[1] == s.disk[1] && d[2] == s.disk[2] && Entries(d) == Entries(s.disk)
  {
    var d := Apply(s.disk, DataWrites(start, data)[..k]);
    if data == [] {
      assert DataWrites(start, data)[..k] == [];
    } else {
      DataPhase(s.disk, start, Chunks(data), k);
    }
    EntriesFrame(s.disk, d);
  }

  lemma WriteTarget(s: Fs, name: Name, data: seq<u8>)
    requires FsOk(s) && |data| <= MAX_FILE && WriteAllowed(s, name, data)
    ensures name in Abs(s.disk) && Abs(s.disk)[name].File?
  {
    assert View(s.disk, name).Some?;
  }

  lemma WriteCommits(s: Fs, name: Name, data: seq<u8>, w: seq<Write>, ok: bool, sb': DiskSuperblock)
    requires FsOk(s) && |data| <= MAX_FILE && WriteIssues(s, name, data, w, ok, sb')
    ensures FsOk(Fs(Apply(s.disk, w), sb'))
    ensures Committed(Abs(s.disk), WriteFile(name, data), ok, Abs(Apply(s.disk, w)))
  {
    if WriteAllowed(s, name, data) {
      var start :| WriteIssuesAt(s, name, data, start, w, ok, sb');
      WritePrefix(s, name, data, start, w, ok, sb', |w|);
      assert w[..|w|] == w;
      WriteTarget(s, name, data);
    }
  }

  lemma WriteCrashes(s: Fs, name: Name, data: seq<u8>, w: seq<Write>, ok: bool, sb': DiskSuperblock, k: nat)
    requires FsOk(s) && |data| <= MAX_FILE && WriteIssues(s, name, data, w, ok, sb') && k <= |w|
    ensures var d := Apply(s.disk, w[..k]);
            DiskOk(d) && SbAgrees(s.sb, d) && CrashState(Abs(s.disk), WriteFile(name, data), Abs(d))
  {
    if WriteAllowed(s, name, data) {
      var start :| WriteIssuesAt(s, name, data, start, w, ok, sb');
      WritePrefix(s, name, data, start, w, ok, sb', k);
    } else {
      assert w[..k] == [];
    }
  }

  lemma VictimIsDoomed(es: seq<DirEntry>, n: Name, k: Name)
    requires Find(es, n) < |es| && Find(es, k) < |es| && Find(es, k) in Victims(es, n)
    ensures k == n || (es[Find(es, n)].kind == TYPE_DIR && n + [SLASH] <= k)
  {
    assert Named(es[Find(es, k)], k) && Named(es[Find(es, n)], n);
  }

  /** `m` and `m'` show the same nodes, except for names whose slots are in `todo`. */
  ghost predicate Survivors(es: seq<DirEntry>, m: map<Name, Node>, todo: seq<nat>, m': map<Name, Node>) {
    && (forall k :: k in m ==> Find(es, k) < |es|)
    && (forall k :: k in m' <==> k in m && Find(es, k) !in todo)
    && (forall k :: k in m' ==> m'[k] == m[k])
  }

  lemma ViewSurvivor(disk: Disk, d: Disk, todo: seq<nat>, k: Name)
    requires |disk| >= DATA_START && |d| >= DATA_START
    requires View(d, k) == if Find(Entries(disk), k) in todo then None else View(disk, k)
    ensures k in Abs(disk) ==> Find(Entries(disk), k) < |Entries(disk)|
    ensures k in Abs(d) <==> k in Abs(disk) && Find(Entries(disk), k) !in todo
    ensures k in Abs(d) ==> Abs(d)[k] == Abs(disk)[k]
  {
    hide NodeAt, EntryAt, Find;
  }

  lemma ClearSurvivors(disk: Disk, todo: seq<nat>)
    requires DiskOk(disk)
    requires forall i :: 0 <= i < |todo| ==> todo[i] < FS_MAX_ENTRIES
    ensures var d := Apply(disk, ClearWrites(disk, todo));
            DiskOk(d) && Survivors(Entries(disk), Abs(disk), todo, Abs(d))
  {
    hide DecodeSuperblock, DirOk, ClearWrites, Apply, View, Abs, Entries, Find;
    var d := Apply(disk, ClearWrites(disk, todo));
    ClearView(disk, todo, []);
    forall k
      ensures k in Abs(disk) ==> Find(Entries(disk), k) < |Entries(disk)|
      ensures k in Abs(d) <==> k in Abs(disk) && Find(Entries(disk), k) !in todo
      ensures k in Abs(d) ==> Abs(d)[k] == Abs(disk)[k]
    {
      ClearView(disk, todo, k);
      ViewSurvivor(disk, d, todo, k);
    }
  }

  /** Clearing doomed slots removes only doomed names. */
  lemma ClearAbs(es: seq<DirEntry>, m: map<Name, Node>, m': map<Name, Node>, n: Name, todo: seq<nat>)
    requires Find(es, n) < |es| && n in m && (es[Find(es, n)].kind == TYPE_DIR ==> m[n].Dir?)
    requires forall i :: i in todo ==> i in Victims(es, n)
    requires Survivors(es, m, todo, m')
    ensures PartlyDeleted(m, n, m')
    ensures n in m' <==> Find(es, n) !in todo
  {
    hide Victims, Find;
    forall k | k in m && k !in m' ensures Doomed(m, n, k) {
      VictimIsDoomed(es, n, k);
    }
  }

  lemma ClearRefines(disk: Disk, n: Name, todo: seq<nat>)
    requires DiskOk(disk) && Find(Entries(disk), n) < FS_MAX_ENTRIES
    requires forall i :: 0 <= i < |todo| ==> todo[i] < FS_MAX_ENTRIES
    requires forall i :: i in todo ==> i in Victims(Entries(disk), n)
    ensures var d := Apply(disk, ClearWrites(disk, todo));
            && DiskOk(d) && d[0] == disk[0] && Entries(d) == Cleared(Entries(disk), todo)
            && PartlyDeleted(Abs(disk), n, Abs(d))
            && (n in Abs(d) <==> Find(Entries(disk), n) !in todo)
  {
    hide DecodeSuperblock, DirOk, ClearWrites, Apply, Survivors, PartlyDeleted, Victims, Cleared;
    ClearEffect(disk, todo);
    ClearSurvivors(disk, todo);
    assert View(disk, n).Some?;
    ClearAbs(Entries(disk), Abs(disk), Abs(Apply(disk, ClearWrites(disk, todo))), n, todo);
  }

  /** The directory and superblock after a delete that returned. */
  lemma DeleteShape(s: Fs, n: Name, done: seq<nat>, w: seq<Write>, ok: bool, sb': DiskSuperblock)
    requires FsOk(s) && DeleteIssues(s, n, done, w, ok, sb') && Find(Entries(s.disk), n) < FS_MAX_ENTRIES
    ensures Entries(Apply(s.disk, w)) == Cleared(Entries(s.disk), done)
    ensures |w| > |done| ==> ok && DecodeSuperblock(Apply(s.disk, w)[0]) == sb'
    ensures ok ==> sb' == AfterDelete(s.sb, Entries(s.disk), n)
  {
    ClearEffect(s.disk, done);
    if |w| > |done| {
      var v := ClearWrites(s.disk, done);
      ApplyConcat(s.disk, v, [Write(0, EncodeSuperblock(sb'))]);
      ClearRefines(s.disk, n, done);
      SuperblockWrite(Apply(s.disk, v), sb');
    }
  }

  lemma DeleteCommits(s: Fs, n: Name, done: seq<nat>, w: seq<Write>, ok: bool, sb': DiskSuperblock)
    requires FsOk(s) && DeleteIssues(s, n, done, w, ok, sb')
    ensures FsOk(Fs(Apply(s.disk, w), sb'))
    ensures Committed(Abs(s.disk), Delete(n, done), ok, Abs(Apply(s.disk, w)))
  {
    hide DecodeSuperblock, EncodeSuperblock, EntryAt, Content, DirOk;
    if Find(Entries(s.disk), n) < FS_MAX_ENTRIES {
      ClearRefines(s.disk, n, done);
      if |w| > |done| {
        ApplyConcat(s.disk, ClearWrites(s.disk, done), [Write(0, EncodeSuperblock(sb'))]);
        SuperblockWrite(Apply(s.disk, ClearWrites(s.disk, done)), sb');
      }
    }
  }

  lemma DeletePartial(s: Fs, n: Name, done: seq<nat>, k: nat)
    requires FsOk(s) && Find(Entries(s.disk), n) < FS_MAX_ENTRIES && k <= |done|
    requires forall i :: 0 <= i < |done| ==> done[i] < FS_MAX_ENTRIES
    requires forall i :: i in done ==> i in Victims(Entries(s.disk), n)
    ensures var d := Apply(s.disk, ClearWrites(s.disk, done)[..k]);
            DiskOk(d) && PartlyDeleted(Abs(s.disk), n, Abs(d))
  {
    hide DecodeSuperblock, EncodeSuperblock, EntryAt, DirOk, Apply;
    ClearPrefix(s.disk, done, k);
    assert forall i :: i in done[..k] ==> i in done;
    ClearRefines(s.disk, n, done[..k]);
  }

  lemma DeleteCrashes(s: Fs, n: Name, done: seq<nat>, w: seq<Write>, ok: bool, sb': DiskSuperblock, k: nat)
    requires FsOk(s) && DeleteIssues(s, n, done, w, ok, sb') && k <= |w|
    ensures var d := Apply(s.disk, w[..k]);
            DiskOk(d) && PartlyDeleted(Abs(s.disk), n, Abs(d))
  {
    FsOkBound(s);
    hide FsOk, DeleteIssues, DiskOk, PartlyDeleted, Committed, Abs, Apply, Entries, Find, Victims, ClearWrites;
    DeleteCut(s, n, done, w, ok, sb', k);
    if w[..k] == w {
      DeleteCommits(s, n, done, w, ok, sb');
      CommittedPartly(s, n, done, w, ok, sb');
    } else {
      DeletePartial(s, n, done, k);
    }
  }

  lemma FsOkBound(s: Fs)
    requires FsOk(s)
    ensures |s.disk| >= DATA_START
  {
  }

  /** A delete that is cut short has zeroed the first of its entries. */
  lemma DeleteCut(s: Fs, n: Name, done: seq<nat>, w: seq<Write>, ok: bool, sb': DiskSuperblock, k: nat)
    requires |s.disk| >= DATA_START && DeleteIssues(s, n, done, w, ok, sb') && k <= |w|
    ensures w[..k] != w ==>
              && Find(Entries(s.disk), n) < FS_MAX_ENTRIES && k <= |done| && (forall i :: 0 <= i < |done| ==> done[i] < FS_MAX_ENTRIES)
              && (forall i :: i in done ==> i in Victims(Entries(s.disk), n)) && w[..k] == ClearWrites(s.disk, done)[..k]
  {
    hide Entries, Find, Victims, Cleared, Freed;
  }

  lemma CommittedPartly(s: Fs, n: Name, done: seq<nat>, w: seq<Write>, ok: bool, sb': DiskSuperblock)
    requires FsOk(Fs(Apply(s.disk, w), sb')) && |s.disk| >= DATA_START
    requires Committed(Abs(s.disk), Delete(n, done), ok, Abs(Apply(s.disk, w)))
    ensures DiskOk(Apply(s.disk, w)) && PartlyDeleted(Abs(s.disk), n, Abs(Apply(s.disk, w)))
  {
    hide Entries, Abs, View, Apply;
  }

  /** The directory and block 0 after `k` writes of a delete, whatever state the directory is in. */
  lemma DeletePrefix(s: Fs, n: Name, done: seq<nat>, w: seq<Write>, ok: bool, sb': DiskSuperblock, k: nat)
    requires Usable(s) && DeleteIssues(s, n, done, w, ok, sb') && Find(Entries(s.disk), n) < FS_MAX_ENTRIES && k <= |w|
    ensures var d := Apply(s.disk, w[..k]);
            && (k <= |done| ==> d[0] == s.disk[0])
            && (k > |done| ==> ok && DecodeSuperblock(d[0]) == sb' && Entries(d) == Cleared(Entries(s.disk), done))
  {
    hide DecodeSuperblock, EncodeSuperblock, Entries, Find, Cleared, Freed, Victims, Apply, ClearWrites, DirOk;
    if k <= |done| {
      assert w[..k] == ClearWrites(s.disk, done)[..k];
      ClearPrefix(s.disk, done, k);
      ClearEffect(s.disk, done[..k]);
    } else {
      assert w[..k] == w;
      var v := ClearWrites(s.disk, done);
      ClearEffect(s.disk, done);
      ApplyOne(s.disk, v, Write(0, EncodeSuperblock(sb')));
      SuperblockRoundTrip(sb');
      EntriesFrame(Apply(s.disk, v), Apply(s.disk, w));
    }
  }

  // ----- Runs

  /** A call that returned, or one cut short by a crash after `k` block writes and a remount. */
  datatype Step =
    | Returned(ev: Event, w: seq<Write>, ok: bool, sb': DiskSuperblock)
    | Crashed(ev: Event, w: seq<Write>, ok: bool, sb': DiskSuperblock, k: nat)

  ghost predicate Legal(s: Fs, step: Step) {
    && |s.disk| >= DATA_START && s.sb.total >= DATA_START
    && Issues(s, step.ev, step.w, step.ok, step.sb')
    && (step.Crashed? ==> step.k <= |step.w|)
  }

  function Next(s: Fs, step: Step): (s': Fs)
    requires |s.disk| > 0
    ensures |s'.disk| == |s.disk|
  {
    if step.Crashed? && step.k <= |step.w| then
      var d := Apply(s.disk, step.w[..step.k]);
      Fs(d, DecodeSuperblock(d[0]))
    else
      Fs(Apply(s.disk, step.w), step.sb')
  }

  function Run(s: Fs, steps: seq<Step>): (s': Fs)
    requires |s.disk| > 0
    ensures |s'.disk| == |s.disk|
  {
    if steps == [] then s else Next(Run(s, steps[..|steps| - 1]), steps[|steps| - 1])
  }

  ghost predicate LegalRun(s: Fs, steps: seq<Step>)
    requires |s.disk| > 0
  {
    forall i :: 0 <= i < |steps| ==> Legal(Run(s, steps[..i]), steps[i])
  }

  ghost predicate AbstractStep(m: map<Name, Node>, step: Step, m': map<Name, Node>) {
    match step
    case Returned(ev, _, ok, _) => Committed(m, ev, ok, m')
    case Crashed(ev, _, _, _, _) => CrashState(m, ev, m')
  }

  /** A call that returns keeps the invariant and does to the map what it reports. */
  lemma CallRefines(s: Fs, ev: Event, w: seq<Write>, ok: bool, sb': DiskSuperblock)
    requires FsOk(s) && Issues(s, ev, w, ok, sb')
    ensures FsOk(Fs(Apply(s.disk, w), sb'))
    ensures Committed(Abs(s.disk), ev, ok, Abs(Apply(s.disk, w)))
  {
    match ev
    case Create(name, kind) => CreateRefines(s, name, kind, w, ok, sb');
    case WriteFile(name, data) => WriteCommits(s, name, data, w, ok, sb');
    case Delete(name, done) => DeleteCommits(s, name, done, w, ok, sb');
  }

  lemma CreateCrashes(s: Fs, name: Name, kind: u8, w: seq<Write>, ok: bool, sb': DiskSuperblock, k: nat)
    requires FsOk(s) && CreateIssues(s, name, kind, w, ok, sb') && k <= |w|
    ensures var d := Apply(s.disk, w[..k]);
            DiskOk(d) && CrashState(Abs(s.disk), Create(name, kind), Abs(d))
  {
    if k == 0 {
      assert w[..k] == [];
    } else {
      assert w[..k] == w;
      CreateEffect(s.disk, name, kind);
    }
  }

  /** A call cut short after any number of block writes leaves a disk that mounts, in an allowed state. */
  lemma CrashRefines(s: Fs, ev: Event, w: seq<Write>, ok: bool, sb': DiskSuperblock, k: nat)
    requires FsOk(s) && Issues(s, ev, w, ok, sb') && k <= |w|
    ensures DiskOk(Apply(s.disk, w[..k]))
    ensures CrashState(Abs(s.disk), ev, Abs(Apply(s.disk, w[..k])))
  {
    match ev
    case Create(name, kind) => CreateCrashes(s, name, kind, w, ok, sb', k);
    case WriteFile(name, data) => WriteCrashes(s, name, data, w, ok, sb', k);
    case Delete(name, done) => DeleteCrashes(s, name, done, w, ok, sb', k);
  }

  lemma StepRefines(s: Fs, step: Step)
    requires FsOk(s) && Legal(s, step)
    ensures FsOk(Next(s, step))
    ensures AbstractStep(Abs(s.disk), step, Abs(Next(s, step).disk))
  {
    match step
    case Returned(ev, w, ok, sb') => CallRefines(s, ev, w, ok, sb');
    case Crashed(ev, w, ok, sb', k) => CrashRefines(s, ev, w, ok, sb', k);
  }

  /** Every state of every run is consistent. */
  lemma {:induction false} RunOk(s: Fs, steps: seq<Step>, i: nat)
    requires FsOk(s) && LegalRun(s, steps) && i <= |steps|
    ensures FsOk(Run(s, steps[..i]))
  {
    hide Legal, DirOk, DecodeSuperblock, Next;
    if i > 0 {
      RunOk(s, steps, i - 1);
      RunOneMore(s, steps, i - 1);
      StepRefines(Run(s, steps[..i - 1]), steps[i - 1]);
    }
  }

  /**
   Every run of calls, failing writes, crashes and remounts, from any consistent
   disk, refines the abstract map step by step.
   */
  lemma RunRefines(s: Fs, steps: seq<Step>, i: nat)
    requires FsOk(s) && LegalRun(s, steps) && i < |steps|
    ensures AbstractStep(Abs(Run(s, steps[..i]).disk), steps[i], Abs(Run(s, steps[..i + 1]).disk))
  {
    hide Legal, DirOk, DecodeSuperblock, Next, AbstractStep;
    RunOk(s, steps, i);
    RunOneMore(s, steps, i);
    StepRefines(Run(s, steps[..i]), steps[i]);
  }

  lemma RunOneMore(s: Fs, steps: seq<Step>, i: nat)
    requires |s.disk| > 0 && i < |steps|
    ensures Run(s, steps[..i + 1]) == Next(Run(s, steps[..i]), steps[i])
  {
    assert steps[..i + 1][..i] == steps[..i];
  }

  // ----- Fault-free calls and exact counts

  /** A call none of whose block writes failed. */
  ghost predicate Clean(s: Fs, step: Step)
    requires |s.disk| >= DATA_START
  {
    && step.Returned?
    && match step.ev
       case Create(name, kind) => step.ok == CreateAllowed(Entries(s.disk), name, kind)
       case WriteFile(name, data) =>
         |data| <= MAX_FILE && (WriteAllowed(s, name, data) ==> |step.w| == Blocks(|data|) + 2)
       case Delete(name, done) =>
         Find(Entries(s.disk), name) < FS_MAX_ENTRIES ==>
           done == Victims(Entries(s.disk), name) && |step.w| == |done| + 1
  }

  /** The count in memory and on disk is exact. */
  ghost predicate Accounted(s: Fs)
    requires |s.disk| >= DATA_START
  {
    && FreeExact(Entries(s.disk), |s.disk|, s.sb.free)
    && DecodeSuperblock(s.disk[0]) == s.sb
  }

  /** A fault-free delete removes exactly the name and, for a directory, the names below it. */
  lemma DeleteExact(s: Fs, n: Name, done: seq<nat>, w: seq<Write>, ok: bool, sb': DiskSuperblock)
    requires FsOk(s) && DeleteIssues(s, n, done, w, ok, sb')
    requires Find(Entries(s.disk), n) < FS_MAX_ENTRIES && done == Victims(Entries(s.disk), n)
    ensures ok && Abs(Apply(s.disk, w)) == WithoutDoomed(Abs(s.disk), n)
  {
    DeleteCommits(s, n, done, w, ok, sb');
    DeleteShape(s, n, done, w, ok, sb');
    AllDoomedGone(s.disk, Apply(s.disk, w), n);
    ExactlyDeleted(Abs(s.disk), n, Abs(Apply(s.disk, w)));
  }

  lemma ExactlyDeleted(m: map<Name, Node>, n: Name, m': map<Name, Node>)
    requires PartlyDeleted(m, n, m') && forall k :: k in m && Doomed(m, n, k) ==> k !in m'
    ensures m' == WithoutDoomed(m, n)
  {
    assert forall k :: k in m' <==> k in WithoutDoomed(m, n);
  }

  lemma AllDoomedGone(disk: Disk, d: Disk, n: Name)
    requires DiskOk(disk) && |d| == |disk| && Find(Entries(disk), n) < FS_MAX_ENTRIES
    requires Entries(d) == Cleared(Entries(disk), Victims(Entries(disk), n))
    ensures forall k :: k in Abs(disk) && Doomed(Abs(disk), n, k) ==> k !in Abs(d)
  {
    forall k | k in Abs(disk) && Doomed(Abs(disk), n, k) ensures k !in Abs(d) {
      DoomedGone(disk, d, n, k);
    }
  }

  lemma DoomedGone(disk: Disk, d: Disk, n: Name, k: Name)
    requires DiskOk(disk) && |d| == |disk| && Find(Entries(disk), n) < FS_MAX_ENTRIES
    requires Entries(d) == Cleared(Entries(disk), Victims(Entries(disk), n))
    requires k in Abs(disk) && Doomed(Abs(disk), n, k)
    ensures k !in Abs(d)
  {
    hide DecodeSuperblock, EntryAt, Content;
    var es := Entries(disk);
    assert Named(es[Find(es, k)], k) && Named(es[Find(es, n)], n);
    assert Abs(disk)[n] == View(disk, n).value;
    FindCleared(es, Limit(|disk|), Victims(es, n), k);
  }
}
