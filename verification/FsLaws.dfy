/**
 When a call succeeds, in terms of the map from names to nodes.
 */
module FsLaws {
  import opened Machine
  import opened Counting
  import opened CString
  import opened FsLayout
  import opened FsSpec
  import opened FsDirectory
  import opened FsProtocol
  import opened FsRuns

  function SlotsBelow(es: seq<DirEntry>, k: nat): (s: set<nat>)
    requires k <= |es|
  {
    set i: nat | i < k && Used(es[i])
  }

  function NamesBelow(es: seq<DirEntry>, k: nat): (s: set<Name>)
    requires k <= |es|
  {
    set i: nat | i < k && Used(es[i]) :: Str(es[i].name)
  }

  /** Names are unique, so there are as many of them as entries in use. */
  lemma {:induction false} OneNameEach(es: seq<DirEntry>, limit: nat, k: nat)
    requires DirOk(es, limit) && k <= |es|
    ensures |NamesBelow(es, k)| == |SlotsBelow(es, k)|
  {
    hide DirOk, NamesBelow, SlotsBelow, Used, Str;
    if k == 0 {
      NothingBelow(es);
    } else {
      OneNameEach(es, limit, k - 1);
      OneMore(es, limit, k - 1);
    }
  }

  lemma NothingBelow(es: seq<DirEntry>)
    ensures NamesBelow(es, 0) == {} && SlotsBelow(es, 0) == {}
  {
  }

  lemma OneMore(es: seq<DirEntry>, limit: nat, k: nat)
    requires DirOk(es, limit) && k < |es|
    ensures !Used(es[k]) ==> SlotsBelow(es, k + 1) == SlotsBelow(es, k) && NamesBelow(es, k + 1) == NamesBelow(es, k)
    ensures Used(es[k]) ==>
              && SlotsBelow(es, k + 1) == SlotsBelow(es, k) + {k} && k !in SlotsBelow(es, k)
              && NamesBelow(es, k + 1) == NamesBelow(es, k) + {Str(es[k].name)} && Str(es[k].name) !in NamesBelow(es, k)
  {
    NameIsNew(es, limit, k);
    hide DirOk, Str;
    var n := Str(es[k].name);
    forall m ensures m in NamesBelow(es, k + 1) <==> m in NamesBelow(es, k) || (Used(es[k]) && m == n) {
      NameMore(es, k, m);
    }
  }

  lemma NameMore(es: seq<DirEntry>, k: nat, m: Name)
    requires k < |es|
    ensures m in NamesBelow(es, k + 1) <==> m in NamesBelow(es, k) || (Used(es[k]) && m == Str(es[k].name))
  {
  }

  lemma NameIsNew(es: seq<DirEntry>, limit: nat, k: nat)
    requires DirOk(es, limit) && k < |es|
    ensures Used(es[k]) ==> Str(es[k].name) !in NamesBelow(es, k)
  {
  }

  lemma NamesAre(es: seq<DirEntry>)
    ensures Names(es) == NamesBelow(es, |es|)
  {
    hide Str;
    forall n ensures n in Names(es) <==> n in NamesBelow(es, |es|) {
      if n in NamesBelow(es, |es|) {
        var i: nat :| i < |es| && Used(es[i]) && Str(es[i].name) == n;
        assert Named(es[i], n);
      }
    }
  }

  lemma SlotsAre(es: seq<DirEntry>)
    requires |es| == 32
    ensures FreeSlot(es) < 32 <==> |SlotsBelow(es, 32)| < 32
  {
    AllBelow(SlotsBelow(es, 32), 32);
    if FreeSlot(es) == 32 {
      assert forall i: nat :: i < 32 ==> i in SlotsBelow(es, 32);
    } else {
      assert FreeSlot(es) !in SlotsBelow(es, 32);
    }
  }

  /** A directory slot is free exactly when the map has fewer than 32 names. */
  lemma SlotLeft(disk: Disk)
    requires DiskOk(disk)
    ensures FreeSlot(Entries(disk)) < FS_MAX_ENTRIES <==> |Abs(disk)| < 32
  {
    var es := Entries(disk);
    OneNameEach(es, Limit(|disk|), 32);
    hide DirOk, DecodeSuperblock, EntryAt, Entries, NamesBelow, SlotsBelow, FreeSlot, View;
    NamesAre(es);
    SlotsAre(es);
    assert Abs(disk).Keys == Names(es);
  }

  /** What fs_create asks for: a name of 1 to 23 characters that is not taken, the type 1 or 2, and fewer than 32 names. */
  predicate MayCreate(m: map<Name, Node>, name: Name, kind: u8) {
    1 <= |name| <= 23 && (kind == 1 || kind == 2) && name !in m && |m| < 32
  }

  lemma CreateExact(disk: Disk, name: Name, kind: u8)
    requires DiskOk(disk) && 0 !in name
    ensures CreateAllowed(Entries(disk), name, kind) <==> MayCreate(Abs(disk), name, kind)
  {
    hide DirOk, DecodeSuperblock, EntryAt, FreeSlot;
    SlotLeft(disk);
  }

  /** Without faults a create succeeds exactly then, and adds an empty directory or file. */
  lemma CreateSucceeds(s: Fs, name: Name, kind: u8, w: seq<Write>, ok: bool, sb': DiskSuperblock)
    requires FsOk(s) && 0 !in name && CreateIssues(s, name, kind, w, ok, sb') && Clean(s, Returned(Create(name, kind), w, ok, sb'))
    ensures ok <==> MayCreate(Abs(s.disk), name, kind)
    ensures Abs(Apply(s.disk, w)) == if ok then Abs(s.disk)[name := if kind == 2 then Dir else File([])] else Abs(s.disk)
  {
    hide DirOk, DecodeSuperblock, EntryAt, FreeSlot, Find;
    CreateExact(s.disk, name, kind);
    if ok {
      CreateEffect(s.disk, name, kind);
    }
  }

  /**
   What fs_write_file asks for: a file of that name, and for data a count of free
   blocks that covers it and as many free blocks in a row among the first 1024.
   */
  ghost predicate MayWrite(s: Fs, name: Name, data: seq<u8>)
    requires |s.disk| >= 3
  {
    && name in Abs(s.disk) && Abs(s.disk)[name].File?
    && (data == [] ||
        var n := (|data| + 511) / 512;
        n <= s.sb.free && exists b: nat :: InARow(s.disk, b, n))
  }

  /** `n` blocks from data block `b` on are there, among the first 1024, and no file has any of them. */
  ghost predicate InARow(disk: Disk, b: nat, n: nat)
    requires |disk| >= 3
  {
    b + n <= (if |disk| < 1027 then |disk| - 3 else 1024) && FreeRun(Entries(disk), b, n)
  }

  lemma WriteExact(s: Fs, name: Name, data: seq<u8>)
    requires FsOk(s) && |data| <= MAX_FILE
    ensures WriteAllowed(s, name, data) <==> MayWrite(s, name, data)
  {
    hide DecodeSuperblock, EntryAt, FreeRun, Content;
    var es := Entries(s.disk);
    assert Find(es, name) < |es| ==> EntryOk(es[Find(es, name)], Limit(|s.disk|));
    assert forall b: nat, n: nat :: InARow(s.disk, b, n) <==> b + n <= Limit(|s.disk|) && FreeRun(es, b, n);
  }

  /** Without faults a write succeeds exactly then, and the file holds the data. */
  lemma WriteSucceeds(s: Fs, name: Name, data: seq<u8>, w: seq<Write>, ok: bool, sb': DiskSuperblock)
    requires FsOk(s) && |data| <= MAX_FILE && Issues(s, WriteFile(name, data), w, ok, sb')
    requires Clean(s, Returned(WriteFile(name, data), w, ok, sb'))
    ensures ok <==> MayWrite(s, name, data)
    ensures Abs(Apply(s.disk, w)) == if ok then Abs(s.disk)[name := File(data)] else Abs(s.disk)
  {
    hide DirOk, DecodeSuperblock, EntryAt, Find, Apply, WritePlan, MayWrite, Abs;
    WriteExact(s, name, data);
    CallRefines(s, WriteFile(name, data), w, ok, sb');
  }
}
