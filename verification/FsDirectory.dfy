/**
 Directory updates of `fs_create` and `fs_delete`, as block writes.
 */
module FsDirectory {
  import opened Machine
  import opened CString
  import opened FsLayout
  import opened FsSpec
  import opened FsAccounting

  const SLASH: u8 := 47

  // ----- fs_create

  /** Index of the first free directory slot, or `|es|`. */
  function FreeSlot(es: seq<DirEntry>): (i: nat)
    ensures i <= |es|
    ensures i < |es| ==> !Used(es[i])
    ensures forall j :: 0 <= j < i ==> Used(es[j])
  {
    if es == [] || !Used(es[0]) then 0
    else
      var r := FreeSlot(es[1..]);
      assert forall j :: 0 < j < 1 + r ==> es[j] == es[1..][j - 1];
      1 + r
  }

  function NewEntry(name: Name, kind: u8): (e: DirEntry)
    requires |name| <= FS_NAME_MAX
  {
    Entry(name + Zeros(24 - |name|), kind, 0, 0, 0)
  }

  function NodeOfKind(kind: u8): (node: Node) {
    if kind == TYPE_DIR then Dir else File([])
  }

  /** When `fs_create` gets as far as writing a directory block. */
  predicate CreateAllowed(es: seq<DirEntry>, name: Name, kind: u8) {
    && 0 < |name| <= FS_NAME_MAX && 0 !in name
    && (kind == TYPE_FILE || kind == TYPE_DIR)
    && Find(es, name) == |es| && FreeSlot(es) < |es|
  }

  lemma CreateDirectory(es: seq<DirEntry>, limit: nat, name: Name, kind: u8)
    requires DirOk(es, limit) && CreateAllowed(es, name, kind)
    ensures var e := NewEntry(name, kind);
            && Named(e, name) && DirOk(es[FreeSlot(es) := e], limit)
  {
    var e := NewEntry(name, kind);
    StrAt(e.name, |name|);
    assert e.name[..|name|] == name;
    assert e.name[|name|] == 0;
    assert forall b: nat :: !Covers(e, b);
    assert forall i :: 0 <= i < |es| ==> !Named(es[i], name);
  }

  lemma CreateShape(disk: Disk, name: Name, kind: u8)
    requires DiskOk(disk) && CreateAllowed(Entries(disk), name, kind)
    ensures var slot := FreeSlot(Entries(disk));
            var d := Apply(disk, [EntryWrite(disk, slot, NewEntry(name, kind))]);
            && DiskOk(d) && d[0] == disk[0]
            && Entries(d) == Entries(disk)[slot := NewEntry(name, kind)]
            && forall b: nat :: DataBlock(d, b) == DataBlock(disk, b)
  {
    var slot := FreeSlot(Entries(disk));
    CreateDirectory(Entries(disk), Limit(|disk|), name, kind);
    EntryWriteEffect(disk, slot, NewEntry(name, kind));
  }

  lemma CreateView(disk: Disk, d: Disk, name: Name, kind: u8, m: Name)
    requires DiskOk(disk) && CreateAllowed(Entries(disk), name, kind)
    requires |d| == |disk| && DiskOk(d)
    requires Entries(d) == Entries(disk)[FreeSlot(Entries(disk)) := NewEntry(name, kind)]
    requires forall b: nat :: DataBlock(d, b) == DataBlock(disk, b)
    ensures View(d, m) == if m == name then Some(NodeOfKind(kind)) else View(disk, m)
  {
    var es := Entries(disk);
    var slot := FreeSlot(es);
    CreateDirectory(es, Limit(|disk|), name, kind);
    if m == name {
      FindIs(Entries(d), Limit(|disk|), name, slot);
    } else {
      FindSame(es, slot, NewEntry(name, kind), m);
      SameNode(disk, d, es, Find(es, m));
    }
  }

  /** `fs_create` adds one empty node and changes nothing else. */
  lemma CreateEffect(disk: Disk, name: Name, kind: u8)
    requires DiskOk(disk) && CreateAllowed(Entries(disk), name, kind)
    ensures var slot := FreeSlot(Entries(disk));
            var d := Apply(disk, [EntryWrite(disk, slot, NewEntry(name, kind))]);
            && DiskOk(d) && d[0] == disk[0]
            && Entries(d) == Entries(disk)[slot := NewEntry(name, kind)]
            && Abs(d) == Abs(disk)[name := NodeOfKind(kind)]
  {
    CreateShape(disk, name, kind);
    var d := Apply(disk, [EntryWrite(disk, FreeSlot(Entries(disk)), NewEntry(name, kind))]);
    forall m ensures View(d, m) == if m == name then Some(NodeOfKind(kind)) else View(disk, m) {
      CreateView(disk, d, name, kind, m);
    }
    AbsEqual(d, Abs(disk)[name := NodeOfKind(kind)]);
  }

  lemma SameNode(d1: Disk, d2: Disk, es: seq<DirEntry>, i: nat)
    requires i < |es| && Used(es[i]) ==> es[i].kind == TYPE_FILE || es[i].kind == TYPE_DIR
    requires forall b: nat :: DataBlock(d1, b) == DataBlock(d2, b)
    ensures i < |es| && Used(es[i]) ==> NodeAt(d1, es[i]) == NodeAt(d2, es[i])
  {
    if i < |es| && es[i].kind == TYPE_FILE {
      ContentFrame(d1, d2, es[i]);
    }
  }

  // ----- fs_delete

  /** Clearing the slots `todo` in order, each by a read-modify-write of its block. */
  function ClearWrites(disk: Disk, todo: seq<nat>): (w: seq<Write>)
    requires |disk| >= DATA_START
    requires forall i :: 0 <= i < |todo| ==> todo[i] < FS_MAX_ENTRIES
    ensures |w| == |todo|
  {
    if todo == [] then []
    else
      var n := |todo| - 1;
      var w := ClearWrites(disk, todo[..n]);
      w + [EntryWrite(Apply(disk, w), todo[n], FREE_ENTRY)]
  }

  /** The directory with the slots in `gone` cleared. */
  function Cleared(es: seq<DirEntry>, gone: seq<nat>): (r: seq<DirEntry>)
    ensures |r| == |es|
    ensures forall i :: 0 <= i < |es| ==> r[i] == if i in gone then FREE_ENTRY else es[i]
  {
    if gone == [] then es
    else
      var k := |gone| - 1;
      var r := Cleared(es, gone[..k]);
      assert forall i :: i in gone <==> i in gone[..k] || i == gone[k];
      if gone[k] < |es| then r[gone[k] := FREE_ENTRY] else r
  }

  lemma ClearOneMore(disk: Disk, todo: seq<nat>, i: nat)
    requires |disk| >= DATA_START && i < FS_MAX_ENTRIES
    requires forall j :: 0 <= j < |todo| ==> todo[j] < FS_MAX_ENTRIES
    ensures forall j :: 0 <= j < |todo + [i]| ==> (todo + [i])[j] < FS_MAX_ENTRIES
    ensures var w := ClearWrites(disk, todo);
            var x := EntryWrite(Apply(disk, w), i, FREE_ENTRY);
            && ClearWrites(disk, todo + [i]) == w + [x]
            && Apply(disk, ClearWrites(disk, todo + [i])) == Apply(Apply(disk, w), [x])
  {
    assert (todo + [i])[..|todo|] == todo;
    ApplyConcat(disk, ClearWrites(disk, todo), [EntryWrite(Apply(disk, ClearWrites(disk, todo)), i, FREE_ENTRY)]);
  }

  lemma {:induction false} ClearPrefix(disk: Disk, todo: seq<nat>, k: nat)
    requires |disk| >= DATA_START && k <= |todo|
    requires forall i :: 0 <= i < |todo| ==> todo[i] < FS_MAX_ENTRIES
    ensures ClearWrites(disk, todo)[..k] == ClearWrites(disk, todo[..k])
  {
    hide EntryWrite, Apply;
    var n := |todo|;
    if k < n {
      ClearPrefix(disk, todo[..n - 1], k);
      assert todo[..n - 1][..k] == todo[..k];
    } else {
      assert todo[..k] == todo;
    }
  }

  lemma {:induction false} ClearEffect(disk: Disk, todo: seq<nat>)
    requires |disk| >= DATA_START
    requires forall i :: 0 <= i < |todo| ==> todo[i] < FS_MAX_ENTRIES
    ensures var d := Apply(disk, ClearWrites(disk, todo));
            && Entries(d) == Cleared(Entries(disk), todo) && d[0] == disk[0]
            && forall b: nat :: DataBlock(d, b) == DataBlock(disk, b)
  {
    if todo == [] {
      assert Entries(disk) == Cleared(Entries(disk), todo);
    } else {
      var n := |todo| - 1;
      ClearEffect(disk, todo[..n]);
      var w := ClearWrites(disk, todo[..n]);
      var d1 := Apply(disk, w);
      var x := EntryWrite(d1, todo[n], FREE_ENTRY);
      ApplyConcat(disk, w, [x]);
      EntryWriteEffect(d1, todo[n], FREE_ENTRY);
      assert forall b: nat :: DataBlock(Apply(d1, [x]), b) == DataBlock(d1, b);
    }
  }

  lemma ClearedOk(es: seq<DirEntry>, limit: nat, gone: seq<nat>)
    requires DirOk(es, limit)
    ensures DirOk(Cleared(es, gone), limit)
  {
    assert forall b: nat :: !Covers(FREE_ENTRY, b);
  }

  lemma FindCleared(es: seq<DirEntry>, limit: nat, gone: seq<nat>, m: Name)
    requires DirOk(es, limit)
    ensures Find(Cleared(es, gone), m) == if Find(es, m) in gone then |es| else Find(es, m)
  {
    var c := Cleared(es, gone);
    var i, j := Find(es, m), Find(c, m);
    if j < |es| {
      assert Named(es[j], m);
      FindIs(es, limit, m, j);
    }
    if i < |es| && i !in gone {
      assert Named(c[i], m);
    }
  }

  /** Clearing slots removes exactly the names that live in them. */
  lemma ClearView(disk: Disk, todo: seq<nat>, m: Name)
    requires DiskOk(disk)
    requires forall i :: 0 <= i < |todo| ==> todo[i] < FS_MAX_ENTRIES
    ensures var d := Apply(disk, ClearWrites(disk, todo));
            && DiskOk(d)
            && View(d, m) == if Find(Entries(disk), m) in todo then None else View(disk, m)
  {
    var es := Entries(disk);
    var d := Apply(disk, ClearWrites(disk, todo));
    ClearEffect(disk, todo);
    ClearedOk(es, Limit(|disk|), todo);
    FindCleared(es, Limit(|disk|), todo, m);
    SameNode(disk, d, es, Find(es, m));
  }

  /** Slots below `k` whose names start with "`n`/", in ascending order. */
  function Children(es: seq<DirEntry>, n: Name, k: nat): (r: seq<nat>)
    requires k <= |es|
    ensures forall i :: 0 <= i < |r| ==> r[i] < k
    ensures forall i :: i in r <==> 0 <= i < k && Used(es[i]) && n + [SLASH] <= Str(es[i].name)
    ensures forall i, j :: 0 <= i < j < |r| ==> r[i] != r[j]
  {
    if k == 0 then []
    else
      var r := Children(es, n, k - 1);
      if Used(es[k - 1]) && n + [SLASH] <= Str(es[k - 1].name) then r + [k - 1] else r
  }

  /** The slots `fs_delete` clears: the children of a directory, then the entry itself. */
  function Victims(es: seq<DirEntry>, n: Name): (r: seq<nat>)
    requires Find(es, n) < |es|
    ensures forall i :: 0 <= i < |r| ==> r[i] < |es|
    ensures forall i, j :: 0 <= i < j < |r| ==> r[i] != r[j]
    ensures forall i :: i in r <==>
              i == Find(es, n)
              || (es[Find(es, n)].kind == TYPE_DIR && 0 <= i < |es| && Used(es[i]) && n + [SLASH] <= Str(es[i].name))
  {
    var slot := Find(es, n);
    if es[slot].kind == TYPE_DIR then
      Children(es, n, |es|) + [slot]
    else [slot]
  }

  function Freed(es: seq<DirEntry>, todo: seq<nat>): (n: nat)
    requires forall i :: 0 <= i < |todo| ==> todo[i] < |es|
  {
    if todo == [] then 0
    else
      var k := |todo| - 1;
      Freed(es, todo[..k]) + FileBlocks(es[todo[k]])
  }

  /** The incremental count of `fs_delete`: what is freed is what is no longer used. */
  lemma {:induction false} FreedBlocks(es: seq<DirEntry>, todo: seq<nat>)
    requires forall i :: 0 <= i < |todo| ==> todo[i] < |es|
    requires forall i, j :: 0 <= i < j < |todo| ==> todo[i] != todo[j]
    ensures UsedBlocks(Cleared(es, todo)) + Freed(es, todo) == UsedBlocks(es)
  {
    if todo == [] {
      assert Cleared(es, todo) == es;
    } else {
      var k := |todo| - 1;
      FreedBlocks(es, todo[..k]);
      var c := Cleared(es, todo[..k]);
      assert c[todo[k]] == es[todo[k]];
      UsedBlocksUpdate(c, todo[k], FREE_ENTRY);
    }
  }
}
