/**
 Changes that leave every address space as it is: handing out or taking back
 frames nobody owns, and writing the bytes of data pages.
 */
module SpaceFrames {
  import opened Pmm
  import opened PagingSpec
  import opened AddressSpace
  import opened Spaces

  // ----- Frames in use

  /** Frames held by the kernel tables or by some process are in `u`. */
  ghost predicate Covers(s: Sys, dirs: set<nat>, u: set<nat>) {
    && Reserved() <= u && (forall f :: f in u ==> f < TOTAL_FRAMES)
    && (forall f: nat :: IsKernelFrame(s, f) ==> f in u)
    && (forall c, f: nat :: c in dirs && Owns(s.mem, c, f) ==> f in u)
  }

  lemma UsedChanges(s: Sys, dirs: set<nat>, u: set<nat>)
    requires SysOk(s, dirs) && Covers(s, dirs, u)
    ensures SysOk(s.(used := u), dirs)
    ensures KernelLow(s) ==> KernelLow(s.(used := u))
  {
    var r := s.(used := u);
    forall i: nat | i < ENTRIES ensures KernelSlotOk(r, i) {
      assert KernelSlotOk(s, i);
      assert s.tables[i] != 0 ==> IsKernelFrame(s, s.tables[i]);
    }
    assert IsKernelFrame(s, s.kdir);
    forall c | c in dirs ensures ProcOk(r, c) {
      UsedChangesOne(s, dirs, u, c);
    }
  }

  lemma UsedChangesOne(s: Sys, dirs: set<nat>, u: set<nat>, c: nat)
    requires SysOk(s, dirs) && Covers(s, dirs, u) && c in dirs
    ensures ProcOk(s.(used := u), c)
  {
    var r := s.(used := u);
    assert ProcOk(s, c) && Owns(s.mem, c, c);
    forall f: nat | ProcessFrame(s, f) && Owns(s.mem, c, f) ensures ProcessFrame(r, f) {
      SameKernelFrames(s, r, f);
    }
    forall a: nat, t: nat | HasTable(s.mem, c, a, t) ensures ProcessFrame(r, t) {
      assert Owns(s.mem, c, t);
    }
    forall a: nat, b: nat, p: nat | HasPage(s.mem, c, a, b, p) ensures ProcessFrame(r, p) {
      assert Owns(s.mem, c, p);
    }
    forall a: nat | 0 < a < KERNEL_PDES ensures SharedSlot(r, c, a) {
      assert SharedSlot(s, c, a);
    }
  }

  lemma AllCovered(s: Sys, dirs: set<nat>)
    requires SysOk(s, dirs)
    ensures Covers(s, dirs, s.used)
  {
    forall f: nat | IsKernelFrame(s, f) ensures f in s.used {
      KernelFrameUsed(s, f);
    }
    forall c, f: nat | c in dirs && Owns(s.mem, c, f) ensures f in s.used {
      OwnedIsUsed(s, c, f);
    }
  }

  /** Allocating a frame changes no address space. */
  lemma AllocKeeps(s: Sys, dirs: set<nat>, f: nat)
    requires SysOk(s, dirs) && f < TOTAL_FRAMES
    ensures SysOk(s.(used := s.used + {f}), dirs)
    ensures KernelLow(s) ==> KernelLow(s.(used := s.used + {f}))
  {
    AllCovered(s, dirs);
    UsedChanges(s, dirs, s.used + {f});
  }

  /** Freeing a frame that no directory and no kernel table holds changes no address space. */
  lemma FreeKeeps(s: Sys, dirs: set<nat>, f: nat)
    requires SysOk(s, dirs) && !IsReserved(f) && !IsKernelFrame(s, f)
    requires forall c :: c in dirs ==> !Owns(s.mem, c, f)
    ensures SysOk(s.(used := s.used - {f}), dirs)
    ensures KernelLow(s) ==> KernelLow(s.(used := s.used - {f}))
  {
    AllCovered(s, dirs);
    UsedChanges(s, dirs, s.used - {f});
  }

  /** Tearing one directory down leaves all others as they are. */
  lemma TearDownKeeps(s: Sys, dirs: set<nat>, d: nat)
    requires SysOk(s, dirs) && d in dirs
    ensures SysOk(Torn(s, d), dirs - {d})
    ensures KernelLow(s) ==> KernelLow(Torn(s, d))
  {
    AllCovered(s, dirs);
    var u := s.used - Owned(s.mem, d);
    forall f: nat | IsKernelFrame(s, f) || IsReserved(f) ensures f !in Owned(s.mem, d) {
      if f in Owned(s.mem, d) {
        OwnedIsUsed(s, d, f);
      }
    }
    assert Covers(s, dirs - {d}, u);
    UsedChanges(s, dirs - {d}, u);
  }

  // ----- Bytes of data pages

  /** Frame `p` may be filled with data: no table lives in it. */
  ghost predicate NoTable(s: Sys, dirs: set<nat>, p: nat) {
    && p < TOTAL_FRAMES && !IsKernelFrame(s, p)
    && ((p < |s.mem| && s.mem[p].Data?) || forall c :: c in dirs ==> !Owns(s.mem, c, p))
  }

  lemma DataWalks(s: Sys, dirs: set<nat>, p: nat, x: Frame, c: nat, a: nat, b: nat)
    requires SysOk(s, dirs) && NoTable(s, dirs, p) && x.Data? && a < ENTRIES && b < ENTRIES
    requires c == s.kdir || c in dirs
    ensures var m := Fill(s.mem, p, x);
            && IsTable(s.mem, c) && IsTable(m, c) && m[c] == s.mem[c] && At(m, c, a) == At(s.mem, c, a)
            && Walk(m, c, a, b) == Walk(s.mem, c, a, b)
  {
    var m := Fill(s.mem, p, x);
    if c == s.kdir {
      assert IsKernelFrame(s, c);
      assert KernelSlotOk(s, a);
      assert At(s.mem, c, a).present ==> IsKernelFrame(s, s.tables[a]);
    } else {
      assert TablesOk(s, c) && Owns(s.mem, c, c);
      var t := At(s.mem, c, a).frame;
      if At(s.mem, c, a).present {
        if Private(a) {
          assert HasTable(s.mem, c, a, t) && Owns(s.mem, c, t);
        } else {
          assert SharedSlot(s, c, a);
          assert IsKernelFrame(s, s.tables[a]);
        }
      }
    }
    WalkFrame(s.mem, m, c, a, b);
  }

  lemma DataOwns(s: Sys, dirs: set<nat>, p: nat, x: Frame, c: nat, f: nat)
    requires SysOk(s, dirs) && NoTable(s, dirs, p) && x.Data? && c in dirs
    ensures var m := Fill(s.mem, p, x);
            && (Owns(m, c, f) <==> Owns(s.mem, c, f))
            && (forall a: nat :: HasTable(m, c, a, f) <==> HasTable(s.mem, c, a, f))
            && (forall a: nat, b: nat :: HasPage(m, c, a, b, f) <==> HasPage(s.mem, c, a, b, f))
  {
    var m := Fill(s.mem, p, x);
    forall a: nat ensures HasTable(m, c, a, f) <==> HasTable(s.mem, c, a, f) {
      if a < ENTRIES { DataWalks(s, dirs, p, x, c, a, 0); }
    }
    forall a: nat, b: nat ensures HasPage(m, c, a, b, f) <==> HasPage(s.mem, c, a, b, f) {
      if a < ENTRIES && b < ENTRIES { DataWalks(s, dirs, p, x, c, a, b); }
    }
  }

  lemma DataProc(s: Sys, dirs: set<nat>, p: nat, x: Frame, c: nat)
    requires SysOk(s, dirs) && NoTable(s, dirs, p) && x.Data? && c in dirs
    ensures ProcOk(s.(mem := Fill(s.mem, p, x)), c)
  {
    var r := s.(mem := Fill(s.mem, p, x));
    assert ProcOk(s, c) && Owns(s.mem, c, c);
    DataWalks(s, dirs, p, x, c, 0, 0);
    forall a: nat, t: nat | HasTable(r.mem, c, a, t)
      ensures ProcessFrame(r, t) && IsTable(r.mem, t) && t != c && At(r.mem, c, a).writable
    {
      DataOwns(s, dirs, p, x, c, t);
      DataWalks(s, dirs, p, x, c, a, 0);
      assert HasTable(s.mem, c, a, t);
      SameKernelFrames(s, r, t);
    }
    forall a: nat, b: nat, t: nat | HasTable(r.mem, c, a, t) && HasTable(r.mem, c, b, t) ensures a == b {
      DataOwns(s, dirs, p, x, c, t);
      assert HasTable(s.mem, c, a, t) && HasTable(s.mem, c, b, t);
    }
    forall a: nat, b: nat, f: nat | HasPage(r.mem, c, a, b, f) ensures ProcessFrame(r, f) && r.mem[f].Data? {
      DataOwns(s, dirs, p, x, c, f);
      assert HasPage(s.mem, c, a, b, f);
      SameKernelFrames(s, r, f);
    }
    forall a: nat | 0 < a < KERNEL_PDES ensures SharedSlot(r, c, a) {
      assert SharedSlot(s, c, a);
      DataWalks(s, dirs, p, x, c, a, 0);
    }
    SameKernelFrames(s, r, c);
  }

  /** Filling a data frame changes no translation and keeps the system consistent. */
  lemma DataKeeps(s: Sys, dirs: set<nat>, p: nat, x: Frame)
    requires SysOk(s, dirs) && NoTable(s, dirs, p) && x.Data?
    ensures SysOk(s.(mem := Fill(s.mem, p, x)), dirs)
    ensures KernelLow(s) ==> KernelLow(s.(mem := Fill(s.mem, p, x)))
  {
    var r := s.(mem := Fill(s.mem, p, x));
    forall i: nat | i < ENTRIES ensures KernelSlotOk(r, i) && At(r.mem, s.kdir, i) == At(s.mem, s.kdir, i) {
      assert KernelSlotOk(s, i);
      assert s.tables[i] != 0 ==> IsKernelFrame(s, s.tables[i]);
      DataWalks(s, dirs, p, x, s.kdir, i, 0);
    }
    assert IsKernelFrame(s, s.kdir);
    forall i: nat, j: nat | i < ENTRIES && j < ENTRIES ensures Walk(r.mem, s.kdir, i, j) == Walk(s.mem, s.kdir, i, j) {
      DataWalks(s, dirs, p, x, s.kdir, i, j);
    }
    forall c | c in dirs ensures ProcOk(r, c) {
      DataProc(s, dirs, p, x, c);
    }
    forall a, b, f: nat | a in dirs && b in dirs && Owns(r.mem, a, f) && Owns(r.mem, b, f) ensures a == b {
      DataOwns(s, dirs, p, x, a, f);
      DataOwns(s, dirs, p, x, b, f);
    }
  }
}
