/**
 The kernel heap as the list of blocks its in-band headers describe.
 */
module HeapSpec {
  import opened Machine

  const HEAP_START: nat := 0x10_0000
  const HEAP_END: nat := 0x20_0000
  const HEAP_SIZE: nat := 0x10_0000
  const HEADER: nat := 8
  const MIN_ALLOC_SIZE: nat := 16

  datatype Block = Block(addr: nat, size: nat, free: bool)

  function End(b: Block): (a: nat) {
    b.addr + b.size
  }

  /** The request rounded up to 4 bytes plus the header, in 32-bit arithmetic. */
  function Total(size: u32): (total: u32) {
    var aligned := if size % 4 != 0 then Wrap32(size + (4 - size % 4)) else size;
    Wrap32(aligned + HEADER)
  }

  /** The block fits the request exactly when no sum wraps around. */
  lemma TotalFits(size: u32)
    ensures Total(size) >= size + HEADER <==> size <= 0xFFFF_FFF4
    ensures size <= 0xFFFF_FFF4 ==> Aligned(Total(size)) && Total(size) < size + HEADER + 4
  {
  }

  predicate Aligned(x: int) {
    x % 4 == 0
  }

  lemma AlignedSum(a: int, b: int)
    requires Aligned(a) && Aligned(b)
    ensures Aligned(a + b) && Aligned(a - b)
  {
  }

  /** Headers tile the heap from HEAP_START to HEAP_END. */
  predicate Tiles(bs: seq<Block>) {
    && |bs| > 0 && bs[0].addr == HEAP_START && End(bs[|bs| - 1]) == HEAP_END
    && (forall i :: 0 <= i < |bs| ==> bs[i].size >= 12 && Aligned(bs[i].size) && Aligned(bs[i].addr))
    && (forall i, j :: 0 <= i < |bs| && j == i + 1 && j < |bs| ==> bs[j].addr == End(bs[i]))
  }

  predicate Coalesced(bs: seq<Block>) {
    forall i, j :: 0 <= i < |bs| && j == i + 1 && j < |bs| ==> !(bs[i].free && bs[j].free)
  }

  predicate Layout(bs: seq<Block>) {
    Tiles(bs) && Coalesced(bs)
  }

  const INITIAL: seq<Block> := [Block(HEAP_START, HEAP_SIZE, true)]

  // ----- Order of addresses

  lemma {:induction false} Ordered(bs: seq<Block>, i: nat, j: nat)
    requires Tiles(bs) && i < j < |bs|
    ensures End(bs[i]) <= bs[j].addr
  {
    if i + 1 < j {
      Ordered(bs, i, j - 1);
    }
  }

  lemma InHeap(bs: seq<Block>, i: nat)
    requires Tiles(bs) && i < |bs|
    ensures HEAP_START <= bs[i].addr && End(bs[i]) <= HEAP_END
  {
    if i > 0 {
      Ordered(bs, 0, i);
    }
    if i < |bs| - 1 {
      Ordered(bs, i, |bs| - 1);
    }
  }

  /** Adding a block's size to its address walks to the next block, or to the end. */
  function AddrAt(bs: seq<Block>, k: nat): (a: nat)
    requires k <= |bs|
  {
    if k < |bs| then bs[k].addr else HEAP_END
  }

  lemma Walk(bs: seq<Block>, k: nat)
    requires Tiles(bs)
    ensures AddrAt(bs, 0) == HEAP_START
    ensures k < |bs| ==> AddrAt(bs, k + 1) == End(bs[k]) && AddrAt(bs, k) < HEAP_END
  {
    if k < |bs| {
      InHeap(bs, k);
    }
  }

  // ----- Allocation

  predicate FitsIn(b: Block, total: nat) {
    b.free && b.size >= total
  }

  /** The lowest-addressed block among the smallest that fit. */
  predicate BestFit(bs: seq<Block>, total: nat, i: nat) {
    && i < |bs| && FitsIn(bs[i], total)
    && (forall j :: 0 <= j < |bs| && FitsIn(bs[j], total) ==> bs[i].size <= bs[j].size)
    && (forall j :: 0 <= j < i && FitsIn(bs[j], total) ==> bs[i].size < bs[j].size)
  }

  predicate Splits(b: Block, total: nat) {
    b.size >= total + HEADER + MIN_ALLOC_SIZE
  }

  function AfterAlloc(bs: seq<Block>, i: nat, total: nat): (r: seq<Block>)
    requires i < |bs| && bs[i].size >= total
  {
    var b := bs[i];
    if Splits(b, total) then
      bs[..i] + [Block(b.addr, total, false), Block(b.addr + total, b.size - total, true)] + bs[i + 1..]
    else
      bs[i := Block(b.addr, b.size, false)]
  }

  lemma AllocTiles(bs: seq<Block>, i: nat, total: nat)
    requires Tiles(bs) && i < |bs| && bs[i].size >= total >= 12 && Aligned(total)
    ensures Tiles(AfterAlloc(bs, i, total))
  {
    hide Aligned;
    var r := AfterAlloc(bs, i, total);
    if Splits(bs[i], total) {
      AlignedSum(bs[i].addr, total);
      AlignedSum(bs[i].size, total);
      assert forall k :: i + 2 <= k < |r| ==> r[k] == bs[k - 1];
    }
  }

  lemma AllocCoalesced(bs: seq<Block>, i: nat, total: nat)
    requires Coalesced(bs) && i < |bs| && FitsIn(bs[i], total)
    ensures Coalesced(AfterAlloc(bs, i, total))
  {
    var r := AfterAlloc(bs, i, total);
    if Splits(bs[i], total) {
      assert forall k :: i + 2 <= k < |r| ==> r[k] == bs[k - 1];
    }
  }

  // ----- Release

  /** Absorbs block `i + 1` into block `i` if it is free. */
  function MergeNext(bs: seq<Block>, i: nat): (r: seq<Block>)
    requires i < |bs|
  {
    if i + 1 < |bs| && bs[i + 1].free then
      bs[..i] + [Block(bs[i].addr, bs[i].size + bs[i + 1].size, bs[i].free)] + bs[i + 2..]
    else bs
  }

  /** Absorbs block `i` into block `i - 1` if that one is free. */
  function MergePrev(bs: seq<Block>, i: nat): (r: seq<Block>)
    requires i < |bs|
  {
    if i > 0 && bs[i - 1].free then
      bs[..i - 1] + [Block(bs[i - 1].addr, bs[i - 1].size + bs[i].size, true)] + bs[i + 1..]
    else bs
  }

  function Freed(bs: seq<Block>, i: nat): (r: seq<Block>)
    requires i < |bs|
  {
    bs[i := bs[i].(free := true)]
  }

  function AfterFree(bs: seq<Block>, i: nat): (r: seq<Block>)
    requires i < |bs|
  {
    MergePrev(MergeNext(Freed(bs, i), i), i)
  }

  lemma MergeNextTiles(bs: seq<Block>, i: nat)
    requires Tiles(bs) && i < |bs|
    ensures Tiles(MergeNext(bs, i)) && i < |MergeNext(bs, i)|
  {
    hide Aligned;
    var r := MergeNext(bs, i);
    if r != bs {
      AlignedSum(bs[i].size, bs[i + 1].size);
      assert forall k :: i + 1 <= k < |r| ==> r[k] == bs[k + 1];
    }
  }

  lemma MergePrevTiles(bs: seq<Block>, i: nat)
    requires Tiles(bs) && i < |bs|
    ensures Tiles(MergePrev(bs, i))
  {
    hide Aligned;
    var r := MergePrev(bs, i);
    if r != bs {
      AlignedSum(bs[i - 1].size, bs[i].size);
      assert forall k :: i <= k < |r| ==> r[k] == bs[k + 1];
    }
  }

  lemma FreeTiles(bs: seq<Block>, i: nat)
    requires Tiles(bs) && i < |bs|
    ensures Tiles(AfterFree(bs, i))
  {
    assert Tiles(Freed(bs, i));
    MergeNextTiles(Freed(bs, i), i);
    MergePrevTiles(MergeNext(Freed(bs, i), i), i);
  }

  /** Freeing a live block of a coalesced heap coalesces it with both neighbours. */
  lemma FreeCoalesced(bs: seq<Block>, i: nat)
    requires Coalesced(bs) && i < |bs| && !bs[i].free
    ensures Coalesced(AfterFree(bs, i))
  {
    var f := Freed(bs, i);
    var m := MergeNext(f, i);
    var r := MergePrev(m, i);
    var d := |f| - |m|;
    assert forall k :: i + 1 <= k < |m| ==> m[k] == bs[k + d];
    assert forall k :: 0 <= k < i ==> m[k] == bs[k];
    if i > 0 && bs[i - 1].free {
      assert forall k :: i <= k < |r| ==> r[k] == bs[k + 1 + d];
    }
  }
}
