/**
 Runs of kmalloc and kfree on the block list.
 */
module HeapRuns {
  import opened Machine
  import opened HeapSpec

  /** An immediate kfree undoes kmalloc exactly. */
  lemma FreeUndoesAlloc(bs: seq<Block>, i: nat, total: nat)
    requires Layout(bs) && i < |bs| && FitsIn(bs[i], total)
    ensures AfterFree(AfterAlloc(bs, i, total), i) == bs
  {
    var a := AfterAlloc(bs, i, total);
    var f := Freed(a, i);
    if Splits(bs[i], total) {
      assert MergeNext(f, i) == bs;
    } else {
      assert f == bs;
      assert i + 1 < |bs| ==> !bs[i + 1].free;
    }
    assert i > 0 ==> !bs[i - 1].free;
  }

  lemma Before(bs: seq<Block>, i: nat, j: nat)
    requires Tiles(bs) && i < j < |bs|
    ensures bs[i].addr < bs[j].addr
  {
    Ordered(bs, i, j);
  }

  // ----- Live blocks

  function Live(bs: seq<Block>): (s: set<Block>)
    ensures forall b :: b in s <==> b in bs && !b.free
  {
    set b | b in bs && !b.free
  }

  /** kmalloc adds one live block, carved out of free space, and keeps all others. */
  lemma AllocLive(bs: seq<Block>, i: nat, total: nat)
    requires Tiles(bs) && i < |bs| && FitsIn(bs[i], total)
    ensures var b := AfterAlloc(bs, i, total)[i];
            && !b.free && b.addr == bs[i].addr && total <= b.size <= bs[i].size
            && b !in Live(bs) && Live(AfterAlloc(bs, i, total)) == Live(bs) + {b}
  {
    hide Tiles;
    var a := AfterAlloc(bs, i, total);
    var b := a[i];
    forall x | x in Live(bs) ensures x in Live(a) && x != b {
      var k :| 0 <= k < |bs| && bs[k] == x;
      if k < i {
        assert a[k] == x;
        Before(bs, k, i);
      } else {
        assert a[if Splits(bs[i], total) then k + 1 else k] == x;
        Before(bs, i, k);
      }
    }
    forall x | x in Live(a) ensures x in Live(bs) || x == b {
      var k :| 0 <= k < |a| && a[k] == x;
      if k < i {
        assert bs[k] == x;
      } else if k > i {
        assert bs[if Splits(bs[i], total) then k - 1 else k] == x;
      }
    }
  }

  /**
   How much a request takes: less than 24 bytes more than it needs. A block with
   at least 24 bytes to spare is cut to size, and the rest is a free block right
   behind it.
   */
  lemma AllocTakes(bs: seq<Block>, i: nat, total: nat)
    requires i < |bs| && FitsIn(bs[i], total)
    ensures var r := AfterAlloc(bs, i, total);
            && r[i].addr == bs[i].addr && total <= r[i].size < total + 24
            && (bs[i].size >= total + 24 ==>
                  r == bs[..i] + [Block(bs[i].addr, total, false), Block(bs[i].addr + total, bs[i].size - total, true)] + bs[i + 1..])
            && (bs[i].size < total + 24 ==> r == bs[i := Block(bs[i].addr, bs[i].size, false)])
  {
  }

  /** So after a request another one succeeds whenever the remainder of the block covers it, and then need not look elsewhere. */
  lemma RemainderServes(bs: seq<Block>, size: u32, more: u32)
    requires Layout(bs) && 0 < size <= 0xFFFF_FFF4 && 0 < more <= 0xFFFF_FFF4 && BestUpTo(bs, Total(size), |bs|) >= 0
    requires var b := bs[BestUpTo(bs, Total(size), |bs|)]; b.size >= Total(size) + 24 && b.size - Total(size) >= Total(more)
    ensures var r := Step(bs, Malloc(size));
            var k := BestUpTo(r, Total(more), |r|);
            k >= 0 && r[k].size <= bs[BestUpTo(bs, Total(size), |bs|)].size - Total(size)
  {
    hide Total, Tiles, Coalesced;
    var i := BestUpTo(bs, Total(size), |bs|);
    var r := Step(bs, Malloc(size));
    AllocTakes(bs, i, Total(size));
    assert r[i + 1] == Block(bs[i].addr + Total(size), bs[i].size - Total(size), true);
    ScanFindsBest(r, Total(more));
  }

  /** On a fresh heap two requests of 100 bytes yield 0x100008 and 0x100074. */
  lemma TwoRequests()
    ensures Legal(INITIAL, Malloc(100))
    ensures var a := Step(INITIAL, Malloc(100));
            && Legal(a, Malloc(100)) && Owner(a, 0x10_0008) < |a|
            && var b := Step(a, Malloc(100));
            && Owner(b, 0x10_0074) < |b|
            && b == [Block(0x10_0000, 108, false), Block(0x10_006C, 108, false), Block(0x10_00D8, 0xF_FF28, true)]
  {
    assert Total(100) == 108 && BestUpTo(INITIAL, 108, 1) == 0;
    var a := Step(INITIAL, Malloc(100));
    assert a == [Block(0x10_0000, 108, false), Block(0x10_006C, 0xF_FF94, true)];
    assert BestUpTo(a, 108, 1) == -1 && BestUpTo(a, 108, 2) == 1;
    var b := Step(a, Malloc(100));
    assert b == [Block(0x10_0000, 108, false), Block(0x10_006C, 108, false), Block(0x10_00D8, 0xF_FF28, true)];
    assert a[0].addr + HEADER == 0x10_0008 && b[1].addr + HEADER == 0x10_0074;
  }

  /** kfree removes one live block and keeps all others. */
  lemma FreeLive(bs: seq<Block>, i: nat)
    requires Tiles(bs) && i < |bs| && !bs[i].free
    ensures Live(AfterFree(bs, i)) == Live(bs) - {bs[i]}
  {
    var f := Freed(bs, i);
    var m := MergeNext(f, i);
    assert Live(f) == Live(bs) - {bs[i]} by {
      forall x | x in Live(f) ensures x in Live(bs) && x != bs[i] {
        var k :| 0 <= k < |f| && f[k] == x;
        assert bs[k] == x && k != i;
        if k < i { Ordered(bs, k, i); } else { Ordered(bs, i, k); }
      }
      forall x | x in Live(bs) && x != bs[i] ensures x in Live(f) {
        var k :| 0 <= k < |bs| && bs[k] == x;
        assert f[k] == x;
      }
    }
    MergeNextLive(f, i);
    MergePrevLive(m, i);
  }

  lemma MergeNextLive(bs: seq<Block>, i: nat)
    requires i < |bs| && bs[i].free
    ensures Live(MergeNext(bs, i)) == Live(bs)
    ensures i < |MergeNext(bs, i)| && MergeNext(bs, i)[i].free
  {
    var r := MergeNext(bs, i);
    if r != bs {
      forall x | x in Live(bs) ensures x in r {
        var k :| 0 <= k < |bs| && bs[k] == x;
        assert r[if k < i then k else k - 1] == x;
      }
    }
  }

  lemma MergePrevLive(bs: seq<Block>, i: nat)
    requires i < |bs| && bs[i].free
    ensures Live(MergePrev(bs, i)) == Live(bs)
  {
    var r := MergePrev(bs, i);
    if r != bs {
      forall x | x in Live(bs) ensures x in r {
        var k :| 0 <= k < |bs| && bs[k] == x;
        assert r[if k < i then k else k - 1] == x;
      }
    }
  }

  lemma SomeLive(bs: seq<Block>)
    requires Layout(bs) && |bs| > 1
    ensures Live(bs) != {}
  {
    assert bs[0] in Live(bs) || bs[1] in Live(bs);
  }

  /** A coalesced heap without live blocks is the initial heap. */
  lemma NothingLive(bs: seq<Block>)
    requires Layout(bs) && Live(bs) == {}
    ensures bs == INITIAL
  {
    if |bs| == 1 {
      assert bs[0] in bs;
    } else {
      SomeLive(bs);
    }
  }

  // ----- Best fit as a scan

  /** The best fit among the first `k` blocks, or -1; a later block wins only if strictly smaller. */
  function BestUpTo(bs: seq<Block>, total: nat, k: nat): (best: int)
    requires k <= |bs|
    ensures -1 <= best < k
    ensures best >= 0 ==> FitsIn(bs[best], total)
  {
    if k == 0 then -1
    else
      var best := BestUpTo(bs, total, k - 1);
      if FitsIn(bs[k - 1], total) && (best < 0 || bs[k - 1].size < bs[best].size) then k - 1 else best
  }

  lemma {:induction false} BestIsBest(bs: seq<Block>, total: nat, k: nat)
    requires k <= |bs|
    ensures var best := BestUpTo(bs, total, k);
            && (best < 0 ==> forall j :: 0 <= j < k ==> !FitsIn(bs[j], total))
            && (best >= 0 ==> BestFit(bs[..k], total, best))
  {
    if k > 0 {
      BestIsBest(bs, total, k - 1);
    }
  }

  /** Once a block fits exactly, the rest of the scan changes nothing. */
  lemma {:induction false} PerfectFit(bs: seq<Block>, total: nat, k: nat, n: nat)
    requires k <= n <= |bs| && BestUpTo(bs, total, k) >= 0 && bs[BestUpTo(bs, total, k)].size == total
    ensures BestUpTo(bs, total, n) == BestUpTo(bs, total, k)
  {
    if k < n {
      PerfectFit(bs, total, k, n - 1);
    }
  }

  /** kmalloc picks the lowest-addressed of the smallest fitting blocks, and fails exactly when none fits. */
  lemma ScanFindsBest(bs: seq<Block>, total: nat)
    ensures var best := BestUpTo(bs, total, |bs|);
            && (best < 0 <==> forall j :: 0 <= j < |bs| ==> !FitsIn(bs[j], total))
            && (best >= 0 ==> BestFit(bs, total, best))
  {
    BestIsBest(bs, total, |bs|);
    assert bs[..|bs|] == bs;
  }

  // ----- Runs

  datatype Op = Malloc(size: u32) | Free(ptr: nat)

  /** Index of the live block whose payload is at `ptr`, or `|bs|`. */
  function Owner(bs: seq<Block>, ptr: nat): (i: nat)
    ensures i <= |bs|
    ensures i < |bs| ==> !bs[i].free && bs[i].addr + HEADER == ptr
    ensures i == |bs| ==> forall j :: 0 <= j < |bs| && !bs[j].free ==> bs[j].addr + HEADER != ptr
  {
    if bs == [] then 0
    else if !bs[0].free && bs[0].addr + HEADER == ptr then 0
    else
      var r := Owner(bs[1..], ptr);
      assert forall j :: 0 < j < |bs| ==> bs[j] == bs[1..][j - 1];
      1 + r
  }

  /** What callers owe: requests that do not wrap, and frees of NULL or of live payloads. */
  predicate Legal(bs: seq<Block>, op: Op) {
    match op
    case Malloc(size) => size <= 0xFFFF_FFF4
    case Free(ptr) => ptr == 0 || Owner(bs, ptr) < |bs|
  }

  function Step(bs: seq<Block>, op: Op): (r: seq<Block>)
    requires Legal(bs, op)
  {
    match op
    case Malloc(size) =>
      var best := BestUpTo(bs, Total(size), |bs|);
      if size == 0 || best < 0 then bs else AfterAlloc(bs, best, Total(size))
    case Free(ptr) =>
      if ptr == 0 then bs else AfterFree(bs, Owner(bs, ptr))
  }

  ghost predicate LegalRun(bs: seq<Block>, ops: seq<Op>)
    decreases |ops|
  {
    ops == [] || (Legal(bs, ops[0]) && LegalRun(Step(bs, ops[0]), ops[1..]))
  }

  function Run(bs: seq<Block>, ops: seq<Op>): (r: seq<Block>)
    requires LegalRun(bs, ops)
    decreases |ops|
  {
    if ops == [] then bs else Run(Step(bs, ops[0]), ops[1..])
  }

  lemma StepLayout(bs: seq<Block>, op: Op)
    requires Layout(bs) && Legal(bs, op)
    ensures Layout(Step(bs, op))
  {
    match op
    case Malloc(size) =>
      var best := BestUpTo(bs, Total(size), |bs|);
      if size > 0 && best >= 0 {
        TotalFits(size);
        AllocTiles(bs, best, Total(size));
        AllocCoalesced(bs, best, Total(size));
      }
    case Free(ptr) =>
      if ptr != 0 {
        FreeTiles(bs, Owner(bs, ptr));
        FreeCoalesced(bs, Owner(bs, ptr));
      }
  }

  /** A kmalloc that succeeds, followed by a kfree of its result, leaves the heap as it was. */
  lemma CallUndoesCall(bs: seq<Block>, size: u32)
    requires Layout(bs) && 0 < size <= 0xFFFF_FFF4 && BestUpTo(bs, Total(size), |bs|) >= 0
    ensures var ptr := bs[BestUpTo(bs, Total(size), |bs|)].addr + HEADER;
            var a := Step(bs, Malloc(size));
            Legal(a, Free(ptr)) && Step(a, Free(ptr)) == bs
  {
    hide Total, Owner, BestUpTo, Tiles, Coalesced, AfterAlloc, AfterFree;
    var i := BestUpTo(bs, Total(size), |bs|);
    StepLayout(bs, Malloc(size));
    FreeUndoesAlloc(bs, i, Total(size));
    InHeap(bs, i);
    AllocAt(bs, i, Total(size));
    OwnerAt(Step(bs, Malloc(size)), i);
  }

  /** The new block is none of those in use before, and they all stay. */
  lemma OthersStay(bs: seq<Block>, size: u32, b: Block)
    requires Layout(bs) && 0 < size <= 0xFFFF_FFF4 && BestUpTo(bs, Total(size), |bs|) >= 0 && b in Live(bs)
    ensures b in Live(Step(bs, Malloc(size))) && b.addr != bs[BestUpTo(bs, Total(size), |bs|)].addr
  {
    hide Total, BestUpTo, Coalesced, AfterAlloc;
    var i := BestUpTo(bs, Total(size), |bs|);
    AllocLive(bs, i, Total(size));
    var j :| 0 <= j < |bs| && bs[j] == b;
    if j < i {
      Before(bs, j, i);
    } else if i < j {
      Before(bs, i, j);
    }
  }

  lemma AllocAt(bs: seq<Block>, i: nat, total: nat)
    requires i < |bs| && bs[i].size >= total
    ensures var a := AfterAlloc(bs, i, total); i < |a| && !a[i].free && a[i].addr == bs[i].addr
  {
  }

  /** A live block is the owner of its payload. */
  lemma OwnerAt(bs: seq<Block>, i: nat)
    requires Tiles(bs) && i < |bs| && !bs[i].free
    ensures Owner(bs, bs[i].addr + HEADER) == i
  {
    hide Tiles;
    var k := Owner(bs, bs[i].addr + HEADER);
    if k < i { Before(bs, k, i); } else if i < k < |bs| { Before(bs, i, k); }
  }

  lemma WrappedTotal(size: u32)
    requires size > 0xFFFF_FFF4
    ensures Total(size) < 12
  {
  }

  /** For any request, the layout survives exactly when no sum wraps around or the block is handed out whole. */
  lemma AllocLayoutExact(bs: seq<Block>, i: nat, size: u32)
    requires Layout(bs) && i < |bs| && size > 0 && FitsIn(bs[i], Total(size))
    ensures Layout(AfterAlloc(bs, i, Total(size))) <==> size <= 0xFFFF_FFF4 || !Splits(bs[i], Total(size))
  {
    hide Total, Aligned;
    TotalFits(size);
    AllocCoalesced(bs, i, Total(size));
    if size <= 0xFFFF_FFF4 {
      AllocTiles(bs, i, Total(size));
    } else {
      WrappedTotal(size);
      if Splits(bs[i], Total(size)) {
        assert AfterAlloc(bs, i, Total(size))[i].size < 12;
      }
    }
  }

  /** A request of 2^32 - 8 bytes wraps to nothing: on a fresh heap it leaves a block of size 0. */
  lemma WrappedRequest()
    ensures FitsIn(INITIAL[0], Total(0xFFFF_FFF8)) && AfterAlloc(INITIAL, 0, Total(0xFFFF_FFF8))[0] == Block(HEAP_START, 0, false)
    ensures !Layout(AfterAlloc(INITIAL, 0, Total(0xFFFF_FFF8)))
  {
    assert Total(0xFFFF_FFF8) == 0;
    var r := AfterAlloc(INITIAL, 0, 0);
    assert r[0] == Block(HEAP_START, 0, false);
  }

  /** In every run the headers tile the heap and no two neighbours are free. */
  lemma {:induction false} RunLayout(bs: seq<Block>, ops: seq<Op>)
    requires Layout(bs) && LegalRun(bs, ops)
    ensures Layout(Run(bs, ops))
    decreases |ops|
  {
    if ops != [] {
      StepLayout(bs, ops[0]);
      RunLayout(Step(bs, ops[0]), ops[1..]);
    }
  }

  /** Payloads of different live blocks never overlap. */
  lemma LiveDisjoint(bs: seq<Block>, a: Block, b: Block)
    requires Tiles(bs) && a in Live(bs) && b in Live(bs) && a != b
    ensures End(a) <= b.addr || End(b) <= a.addr
  {
    var i :| 0 <= i < |bs| && bs[i] == a;
    var j :| 0 <= j < |bs| && bs[j] == b;
    if i < j { Ordered(bs, i, j); } else { Ordered(bs, j, i); }
  }

  // ----- Freeing everything

  function Frees(ptrs: seq<nat>): (ops: seq<Op>) {
    if ptrs == [] then [] else [Free(ptrs[0])] + Frees(ptrs[1..])
  }

  /** `ptrs` lists the payload of every live block exactly once, in some order. */
  ghost predicate ListsLive(bs: seq<Block>, ptrs: seq<nat>) {
    && (forall i, j :: 0 <= i < j < |ptrs| ==> ptrs[i] != ptrs[j])
    && (forall p: nat :: p in ptrs <==> Owner(bs, p) < |bs|)
  }

  lemma OwnerIsLive(bs: seq<Block>, p: nat)
    ensures Owner(bs, p) < |bs| <==> exists b :: b in Live(bs) && b.addr + HEADER == p
  {
    if Owner(bs, p) < |bs| {
      assert bs[Owner(bs, p)] in Live(bs);
    }
  }

  lemma LiveHasOwner(bs: seq<Block>)
    ensures forall b :: b in Live(bs) ==> Owner(bs, b.addr + HEADER) < |bs|
  {
    forall b | b in Live(bs) ensures Owner(bs, b.addr + HEADER) < |bs| {
      OwnerIsLive(bs, b.addr + HEADER);
    }
  }

  /** Different live blocks have different payload addresses. */
  lemma OwnerUnique(bs: seq<Block>, i: nat, b: Block)
    requires Tiles(bs) && i < |bs| && !bs[i].free && b in Live(bs) && b.addr == bs[i].addr
    ensures b == bs[i]
  {
    var k :| 0 <= k < |bs| && bs[k] == b;
    if k < i { Ordered(bs, k, i); } else if i < k { Ordered(bs, i, k); }
  }

  lemma FreeOwner(bs: seq<Block>, i: nat, p: nat)
    requires Tiles(bs) && i < |bs| && !bs[i].free
    ensures Owner(AfterFree(bs, i), p) < |AfterFree(bs, i)| <==> Owner(bs, p) < |bs| && p != bs[i].addr + HEADER
  {
    hide AfterFree, Owner, Live, Tiles;
    FreeLive(bs, i);
    OwnerIsLive(bs, p);
    OwnerIsLive(AfterFree(bs, i), p);
    forall b | b in Live(bs) && b.addr == bs[i].addr ensures b == bs[i] {
      OwnerUnique(bs, i, b);
    }
  }

  /** Freeing all live blocks, in any order, leaves the single initial block. */
  lemma {:induction false} FreeAllInAnyOrder(bs: seq<Block>, ptrs: seq<nat>)
    requires Layout(bs) && ListsLive(bs, ptrs)
    ensures LegalRun(bs, Frees(ptrs)) && Run(bs, Frees(ptrs)) == INITIAL
    decreases |ptrs|
  {
    hide AfterFree, Owner, Tiles, Coalesced;
    if ptrs == [] {
      LiveHasOwner(bs);
      NothingLive(bs);
    } else {
      var p := ptrs[0];
      var i := Owner(bs, p);
      assert p in ptrs;
      var r := AfterFree(bs, i);
      FreeTiles(bs, i);
      FreeCoalesced(bs, i);
      forall q: nat ensures q in ptrs[1..] <==> Owner(r, q) < |r| {
        FreeOwner(bs, i, q);
        assert q in ptrs <==> q == p || q in ptrs[1..];
      }
      FreeAllInAnyOrder(r, ptrs[1..]);
      assert Frees(ptrs)[1..] == Frees(ptrs[1..]);
    }
  }
}
