/**
 The physical memory manager: a bitmap of 4096 page frames.
 */
module Pmm {
  import opened Machine
  import opened Bits
  import opened Counting

  const PAGE_SIZE: nat := 4096
  const TOTAL_FRAMES: nat := 4096
  const BITMAP_WORDS: nat := 128
  const BITMAP_FRAME: nat := 512

  predicate PageAligned(addr: nat) {
    addr % 4096 == 0
  }

  function FrameOf(addr: nat): (f: nat) {
    addr / 4096
  }

  lemma FrameAddress(f: nat)
    ensures PageAligned(f * PAGE_SIZE) && FrameOf(f * PAGE_SIZE) == f
  {
  }

  /** Frames set aside at boot: low memory, the kernel heap, the bitmap, device memory. */
  predicate IsReserved(f: nat) {
    f <= BITMAP_FRAME || 3840 <= f < TOTAL_FRAMES
  }

  function Reserved(): (s: set<nat>)
    ensures forall f: nat :: f in s <==> IsReserved(f)
  {
    set f: nat | f < TOTAL_FRAMES && IsReserved(f)
  }

  predicate BitAt(bm: seq<Bits32>, f: nat)
    requires |bm| == BITMAP_WORDS && f < TOTAL_FRAMES
  {
    bm[f / 32][f % 32]
  }

  /** The set of frames the bitmap marks as used. */
  function UsedSet(bm: seq<Bits32>): (s: set<nat>)
    requires |bm| == BITMAP_WORDS
    ensures forall f: nat :: f in s <==> f < TOTAL_FRAMES && BitAt(bm, f)
  {
    set f: nat | f < TOTAL_FRAMES && BitAt(bm, f)
  }

  /** Setting or clearing one bit adds or removes one frame. */
  lemma OneBit(bm: seq<Bits32>, f: nat, on: bool)
    requires |bm| == BITMAP_WORDS && f < TOTAL_FRAMES
    ensures var w := bm[f / 32][f % 32 := on];
            UsedSet(bm[f / 32 := w]) == if on then UsedSet(bm) + {f} else UsedSet(bm) - {f}
  {
    var bm' := bm[f / 32 := bm[f / 32][f % 32 := on]];
    forall g: nat | g < TOTAL_FRAMES ensures BitAt(bm', g) <==> if g == f then on else BitAt(bm, g) {
      if g != f && g / 32 == f / 32 {
        assert g % 32 != f % 32;
      }
    }
  }

  // ----- What allocation means

  predicate LowestFree(used: set<nat>, f: nat) {
    f < TOTAL_FRAMES && f !in used && forall g: nat :: g < f ==> g in used
  }

  predicate FreeRun(used: set<nat>, s: nat, n: nat) {
    s + n <= TOTAL_FRAMES && forall f: nat :: s <= f < s + n ==> f !in used
  }

  /** The lowest run of `n` consecutive free frames. */
  predicate LowestRun(used: set<nat>, n: nat, s: nat) {
    FreeRun(used, s, n) && forall t: nat :: t < s ==> !FreeRun(used, t, n)
  }

  ghost predicate HasRun(used: set<nat>, n: nat) {
    exists s: nat :: FreeRun(used, s, n)
  }

  /** All frames are used. */
  predicate Full(used: set<nat>) {
    forall f: nat :: f < TOTAL_FRAMES ==> f in used
  }

  // ----- Calls

  datatype Op = Alloc | AllocRun(count: nat) | Free(addr: nat)

  /** Callers free only addresses outside the reserved regions. */
  predicate Legal(op: Op) {
    op.Free? ==> !(PageAligned(op.addr) && IsReserved(FrameOf(op.addr)))
  }

  /** One call: the frames it hands out, and the frames used afterwards. */
  ghost predicate Call(used: set<nat>, op: Op, given: set<nat>, used': set<nat>) {
    match op
    case Alloc =>
      if Full(used) then given == {} && used' == used
      else exists f: nat :: LowestFree(used, f) && given == {f} && used' == used + {f}
    case AllocRun(n) =>
      if n == 0 || !HasRun(used, n) then given == {} && used' == used
      else exists s: nat :: LowestRun(used, n, s) && given == Range(s, n) && used' == used + Range(s, n)
    case Free(addr) =>
      given == {} && used' == if PageAligned(addr) then used - {FrameOf(addr)} else used
  }

  class FrameAllocator {
    const bitmap: array<Bits32>
    var usedFrames: nat

    /** The count is the size of the set. */
    ghost predicate Counted()
      reads this, bitmap
    {
      bitmap.Length == BITMAP_WORDS && usedFrames == |UsedSet(bitmap[..])|
    }

    ghost predicate Valid()
      reads this, bitmap
      ensures Valid() ==> bitmap.Length == BITMAP_WORDS
    {
      Counted() && Reserved() <= UsedSet(bitmap[..])
    }

    ghost function Used(): (s: set<nat>)
      requires bitmap.Length == BITMAP_WORDS
      reads this, bitmap
      ensures forall f :: f in s ==> f < TOTAL_FRAMES
    {
      UsedSet(bitmap[..])
    }

    method SetFrame(frame: nat)
      requires bitmap.Length == BITMAP_WORDS && frame < TOTAL_FRAMES
      modifies this, bitmap
      ensures Used() == old(Used()) + {frame} && usedFrames == old(usedFrames) + 1
    {
      OneBit(bitmap[..], frame, true);
      ghost var bm := bitmap[..];
      bitmap[frame / 32] := bitmap[frame / 32][frame % 32 := true];
      assert bitmap[..] == bm[frame / 32 := bm[frame / 32][frame % 32 := true]];
      usedFrames := usedFrames + 1;
    }

    method ClearFrame(frame: nat)
      requires bitmap.Length == BITMAP_WORDS && frame < TOTAL_FRAMES && usedFrames > 0
      modifies this, bitmap
      ensures Used() == old(Used()) - {frame} && usedFrames == old(usedFrames) - 1
    {
      OneBit(bitmap[..], frame, false);
      ghost var bm := bitmap[..];
      bitmap[frame / 32] := bitmap[frame / 32][frame % 32 := false];
      assert bitmap[..] == bm[frame / 32 := bm[frame / 32][frame % 32 := false]];
      usedFrames := usedFrames - 1;
    }

    method TestFrame(frame: nat) returns (used: bool)
      requires bitmap.Length == BITMAP_WORDS && frame < TOTAL_FRAMES
      ensures used <==> frame in Used()
    {
      assert BitAt(bitmap[..], frame) == bitmap[frame / 32][frame % 32];
      used := bitmap[frame / 32][frame % 32];
    }

    /** Marks a stretch of frames that are not yet used. */
    method Reserve(first: nat, last: nat)
      requires bitmap.Length == BITMAP_WORDS && first <= last <= TOTAL_FRAMES
      requires usedFrames == |Used()| && forall f :: first <= f < last ==> f !in Used()
      modifies this, bitmap
      ensures usedFrames == |Used()|
      ensures forall f: nat :: f in Used() <==> f in old(Used()) || first <= f < last
    {
      var frame := first;
      while frame < last
        invariant first <= frame <= last && usedFrames == |Used()|
        invariant forall f: nat :: f in Used() <==> f in old(Used()) || first <= f < frame
      {
        SetFrame(frame);
        frame := frame + 1;
      }
    }

    /** `pmm_init`: everything free except the reserved regions. */
    constructor (bitmap: array<Bits32>)
      requires bitmap.Length == BITMAP_WORDS
      modifies bitmap
      ensures this.bitmap == bitmap && Valid() && Used() == Reserved()
    {
      this.bitmap, usedFrames := bitmap, 0;
      new;
      var i := 0;
      while i < BITMAP_WORDS
        invariant i <= BITMAP_WORDS && usedFrames == 0
        invariant forall j :: 0 <= j < i ==> bitmap[j] == ZERO_32
        modifies bitmap
      {
        bitmap[i] := ZERO_32;
        i := i + 1;
      }
      assert forall f: nat :: f < TOTAL_FRAMES ==> !BitAt(bitmap[..], f);
      assert Used() == {};
      ReserveAll();
    }

    method ReserveAll()
      requires bitmap.Length == BITMAP_WORDS && Used() == {} && usedFrames == 0
      modifies this, bitmap
      ensures usedFrames == |Used()| && Used() == Reserved()
    {
      Reserve(0, 256);
      Reserve(256, 512);
      Reserve(BITMAP_FRAME, BITMAP_FRAME + BITMAP_WORDS * 4 / PAGE_SIZE + 1);
      Reserve(3840, TOTAL_FRAMES);
      assert Used() == Reserved();
    }

    /** The lowest free frame, skipping words with all bits set. */
    method FirstFreeFrame() returns (frame: nat)
      requires bitmap.Length == BITMAP_WORDS
      ensures frame < TOTAL_FRAMES ==> LowestFree(Used(), frame)
      ensures frame >= TOTAL_FRAMES ==> frame == TOTAL_FRAMES && Full(Used())
    {
      var i := 0;
      while i < BITMAP_WORDS
        invariant i <= BITMAP_WORDS
        invariant forall g: nat :: g < 32 * i ==> g in Used()
      {
        if bitmap[i] != ONES_32 {
          var j := 0;
          while j < 32
            invariant j <= 32
            invariant forall k :: 0 <= k < j ==> bitmap[i][k]
          {
            if !bitmap[i][j] {
              WordBits(bitmap[..], i, j);
              return i * 32 + j;
            }
            j := j + 1;
          }
        }
        WordBits(bitmap[..], i, 32);
        i := i + 1;
      }
      return TOTAL_FRAMES;
    }

    /** The lowest free page, or 0 exactly when every frame is used. */
    method AllocPage() returns (addr: nat)
      requires Valid()
      modifies this, bitmap
      ensures Valid() && PageAligned(addr)
      ensures addr == 0 <==> Full(old(Used()))
      ensures addr == 0 ==> Used() == old(Used())
      ensures addr != 0 ==> LowestFree(old(Used()), FrameOf(addr)) && Used() == old(Used()) + {FrameOf(addr)}
      ensures Call(old(Used()), Alloc, if addr == 0 then {} else {FrameOf(addr)}, Used())
    {
      hide UsedSet, FrameOf, PageAligned;
      FrameAddress(0);
      var frame := FirstFreeFrame();
      if frame == TOTAL_FRAMES {
        return 0;
      }
      SetFrame(frame);
      FrameAddress(frame);
      addr := frame * PAGE_SIZE;
    }

    /** Marks `count` free frames from `start` on. */
    method TakeRun(start: nat, count: nat)
      requires Valid() && FreeRun(Used(), start, count)
      modifies this, bitmap
      ensures Valid() && Used() == old(Used()) + Range(start, count)
    {
      hide UsedSet;
      Reserve(start, start + count);
      assert Used() == old(Used()) + Range(start, count);
    }

    /** The scan of alloc_pages: the start of the lowest run of `count` free frames. */
    method FindRun(count: nat) returns (found: bool, start: nat)
      requires bitmap.Length == BITMAP_WORDS && count > 0
      ensures found <==> HasRun(Used(), count)
      ensures found ==> LowestRun(Used(), count, start)
    {
      ghost var used := Used();
      var consecutive, frame := 0, 0;
      start := 0;
      while frame < TOTAL_FRAMES
        invariant frame <= TOTAL_FRAMES && 0 <= consecutive < count && consecutive <= frame
        invariant consecutive > 0 ==> start == frame - consecutive
        invariant forall f: nat :: frame - consecutive <= f < frame ==> f !in used
        invariant consecutive < frame ==> frame - consecutive - 1 in used
        invariant forall s: nat :: s + count <= frame ==> !FreeRun(used, s, count)
      {
        var taken := TestFrame(frame);
        if !taken {
          if consecutive == 0 {
            start := frame;
          }
          consecutive := consecutive + 1;
          if consecutive == count {
            assert FreeRun(used, start, count);
            return true, start;
          }
        } else {
          consecutive := 0;
        }
        frame := frame + 1;
      }
      found := false;
    }

    /** The lowest run of `count` free pages, or 0 exactly when there is none. */
    method AllocPages(count: nat) returns (addr: nat)
      requires Valid()
      modifies this, bitmap
      ensures Valid() && PageAligned(addr)
      ensures count == 0 ==> addr == 0
      ensures count >= 1 ==> (addr == 0 <==> !HasRun(old(Used()), count))
      ensures addr == 0 ==> Used() == old(Used())
      ensures addr != 0 ==> LowestRun(old(Used()), count, FrameOf(addr))
                            && Used() == old(Used()) + Range(FrameOf(addr), count)
      ensures Call(old(Used()), AllocRun(count), if addr == 0 then {} else Range(FrameOf(addr), count), Used())
    {
      hide UsedSet, FrameOf, PageAligned, HasRun, LowestRun, Full, Call;
      FrameAddress(0);
      ghost var used := Used();
      CallRefused(used, count);
      if count == 0 {
        return 0;
      }
      SinglePage(used);
      if count == 1 {
        addr := AllocPage();
        CallRun(used, 1, FrameOf(addr));
        return;
      }
      var found, start := FindRun(count);
      if !found {
        return 0;
      }
      RunStart(used, count, start);
      CallRun(used, count, start);
      TakeRun(start, count);
      FrameAddress(start);
      addr := start * PAGE_SIZE;
    }

    /**
     Frees a page; misaligned, out-of-range and free addresses are reported and
     ignored. The reserved frames are not guarded: they stay in use exactly when
     the address is none of theirs.
     */
    method FreePage(addr: nat)
      requires Valid() && addr < TWO_32
      modifies this, bitmap
      ensures Counted() && (Valid() <==> Legal(Free(addr)))
      ensures Used() == if PageAligned(addr) then old(Used()) - {FrameOf(addr)} else old(Used())
      ensures Call(old(Used()), Free(addr), {}, Used())
    {
      if !PageAligned(addr) {
        return;
      }
      var frame := FrameOf(addr);
      if frame >= TOTAL_FRAMES {
        return;
      }
      var taken := TestFrame(frame);
      if !taken {
        return;
      }
      assert usedFrames > 0;
      ClearFrame(frame);
    }
  }

  lemma WordBits(bm: seq<Bits32>, i: nat, j: nat)
    requires |bm| == BITMAP_WORDS && i < BITMAP_WORDS && j <= 32
    requires forall k :: 0 <= k < j ==> bm[i][k]
    ensures forall g: nat :: 32 * i <= g < 32 * i + j ==> g in UsedSet(bm)
    ensures j < 32 ==> (bm[i][j] <==> 32 * i + j in UsedSet(bm))
  {
    forall g: nat | 32 * i <= g < 32 * i + j ensures g in UsedSet(bm) {
      assert g / 32 == i && g % 32 == g - 32 * i;
      assert BitAt(bm, g);
    }
    if j < 32 {
      assert (32 * i + j) / 32 == i && (32 * i + j) % 32 == j;
    }
  }

  lemma CallRefused(used: set<nat>, n: nat)
    ensures n == 0 || !HasRun(used, n) ==> Call(used, AllocRun(n), {}, used)
  {
  }

  lemma CallRun(used: set<nat>, n: nat, s: nat)
    ensures n > 0 && LowestRun(used, n, s) ==> Call(used, AllocRun(n), Range(s, n), used + Range(s, n))
  {
    assert FreeRun(used, s, n) ==> HasRun(used, n);
  }

  lemma RunStart(used: set<nat>, n: nat, s: nat)
    requires LowestRun(used, n, s) && n > 0
    ensures s !in used && FreeRun(used, s, n)
  {
  }

  /** A single free page is a run of length one. */
  lemma SinglePage(used: set<nat>)
    ensures HasRun(used, 1) <==> !Full(used)
    ensures forall f: nat :: LowestFree(used, f) ==> LowestRun(used, 1, f)
    ensures forall f: nat :: Range(f, 1) == {f}
  {
    if !Full(used) {
      var f: nat :| f < TOTAL_FRAMES && f !in used;
      assert FreeRun(used, f, 1);
    }
    if HasRun(used, 1) {
      var s: nat :| FreeRun(used, s, 1);
      assert s !in used;
    }
    forall f: nat | LowestFree(used, f) ensures LowestRun(used, 1, f) {
      forall t: nat | t < f ensures !FreeRun(used, t, 1) {
        assert t in used;
      }
    }
  }

  // ----- Runs

  /** No call hands out a frame that is in use, and reserved frames stay in use. */
  lemma CallSafe(used: set<nat>, op: Op, given: set<nat>, used': set<nat>)
    requires Reserved() <= used && Legal(op) && Call(used, op, given, used')
    ensures given !! used && given !! Reserved() && Reserved() <= used'
  {
  }

  /** A run: what each call handed out, and the frames used after it. */
  ghost predicate IsRun(used: set<nat>, ops: seq<Op>, given: seq<set<nat>>, states: seq<set<nat>>) {
    && |given| == |ops| && |states| == |ops| + 1 && states[0] == used
    && forall i :: 0 <= i < |ops| ==> Legal(ops[i]) && Call(states[i], ops[i], given[i], states[i + 1])
  }

  /** In every run from boot, no call hands out a frame that is in use or reserved. */
  lemma {:induction false} RunSafe(ops: seq<Op>, given: seq<set<nat>>, states: seq<set<nat>>, i: nat)
    requires IsRun(Reserved(), ops, given, states) && i <= |ops|
    ensures Reserved() <= states[i]
    ensures i < |ops| ==> given[i] !! states[i] && given[i] !! Reserved()
  {
    if i > 0 {
      RunSafe(ops, given, states, i - 1);
      CallSafe(states[i - 1], ops[i - 1], given[i - 1], states[i]);
    }
    if i < |ops| {
      CallSafe(states[i], ops[i], given[i], states[i + 1]);
    }
  }

  predicate Frees(op: Op, f: nat) {
    op.Free? && PageAligned(op.addr) && FrameOf(op.addr) == f
  }

  /** Only a free of its own address ends the use of a frame. */
  lemma {:induction false} UsedUntilFreed(used: set<nat>, ops: seq<Op>, given: seq<set<nat>>, states: seq<set<nat>>, i: nat, j: nat, f: nat)
    requires IsRun(used, ops, given, states) && i <= j <= |ops| && f in states[i] && f !in states[j]
    ensures exists l :: i <= l < j && Frees(ops[l], f)
  {
    if f in states[j - 1] {
      assert Call(states[j - 1], ops[j - 1], given[j - 1], states[j]);
      assert Frees(ops[j - 1], f);
    } else {
      UsedUntilFreed(used, ops, given, states, i, j - 1, f);
    }
  }

  /** No frame is handed out twice unless it was freed in between. */
  lemma NoDoubleHandout(ops: seq<Op>, given: seq<set<nat>>, states: seq<set<nat>>, i: nat, j: nat, f: nat)
    requires IsRun(Reserved(), ops, given, states) && i < j < |ops| && f in given[i] && f in given[j]
    ensures exists l :: i < l < j && Frees(ops[l], f)
  {
    assert Call(states[i], ops[i], given[i], states[i + 1]);
    RunSafe(ops, given, states, j);
    UsedUntilFreed(Reserved(), ops, given, states, i + 1, j, f);
  }

  /** free_page does not guard the reserved frames: they stay in use exactly when the caller spares them. */
  lemma FreeReserved(used: set<nat>, addr: nat, used': set<nat>)
    requires Reserved() <= used && Call(used, Free(addr), {}, used')
    ensures Reserved() <= used' <==> Legal(Free(addr))
  {
    if !Legal(Free(addr)) {
      assert FrameOf(addr) in Reserved() && FrameOf(addr) !in used';
    }
  }

  /** After page 0 has been freed, the next allocation hands it out, and its address reads as failure. */
  lemma FreeZeroThenAlloc(used: set<nat>)
    requires Reserved() <= used
    ensures Call(used, Free(0), {}, used - {0}) && Call(used - {0}, Alloc, {0}, used)
  {
    assert LowestFree(used - {0}, 0);
    assert used - {0} + {0} == used;
  }
}
