/**
 The best-fit kernel heap, with its headers stored in the heap memory itself.
 */
module Kmalloc {
  import opened Machine
  import opened HeapSpec
  import opened HeapRuns

  const NULL: nat := 0
  const HEAP_WORDS: nat := 0x4_0000

  /** Index of the 32-bit word at address `a`. */
  function Word(a: nat): (w: nat)
    requires a >= HEAP_START
  {
    (a - HEAP_START) / 4
  }

  lemma WordOrder(a: nat, b: nat)
    requires HEAP_START <= a && a + 8 <= b && Aligned(a) && Aligned(b)
    ensures Word(a) + 2 <= Word(b)
  {
  }

  lemma WordInHeap(a: nat)
    requires HEAP_START <= a && a + 8 <= HEAP_END && Aligned(a)
    ensures Word(a) + 1 < HEAP_WORDS
  {
  }

  /** The two header words at address `a` describe the block `b`. */
  predicate Header(m: seq<u32>, b: Block) {
    && b.addr >= HEAP_START && Word(b.addr) + 1 < |m|
    && m[Word(b.addr)] == b.size && m[Word(b.addr) + 1] == if b.free then 1 else 0
  }

  predicate Headers(m: seq<u32>, bs: seq<Block>) {
    |m| == HEAP_WORDS && forall i :: 0 <= i < |bs| ==> Header(m, bs[i])
  }

  /** The payload words of `b` are the same in `m` and `m'`. */
  predicate SamePayload(m: seq<u32>, m': seq<u32>, b: Block) {
    && b.addr >= HEAP_START && |m| == |m'|
    && forall w {:trigger m'[w]} :: Word(b.addr) + 2 <= w < Word(End(b)) && w < |m| ==> m'[w] == m[w]
  }

  /** `m'` differs from `m` at most in the two header words at `a`. */
  predicate OnlyHeader(m: seq<u32>, m': seq<u32>, a: nat)
    requires a >= HEAP_START
  {
    |m'| == |m| && forall w :: 0 <= w < |m| && w != Word(a) && w != Word(a) + 1 ==> m'[w] == m[w]
  }

  /** Rewriting a header leaves blocks on either side of it alone. */
  lemma HeaderFrame(m: seq<u32>, m': seq<u32>, a: nat, b: Block)
    requires a >= HEAP_START && OnlyHeader(m, m', a) && Aligned(a)
    requires b.addr >= HEAP_START && Aligned(b.addr) && Aligned(b.size) && b.size >= 8
    requires End(b) <= a || a + 8 <= b.addr
    ensures Header(m, b) ==> Header(m', b)
    ensures SamePayload(m, m', b)
  {
    AlignedSum(b.addr, b.size);
    if End(b) <= a {
      WordOrder(b.addr, a);
      assert Word(End(b)) <= Word(a);
    } else {
      WordOrder(a, b.addr);
    }
  }

  predicate BlockOk(b: Block) {
    HEAP_START <= b.addr && b.size >= 12 && Aligned(b.addr) && Aligned(b.size) && End(b) <= HEAP_END
  }

  lemma TileOk(bs: seq<Block>, i: nat)
    requires Tiles(bs) && i < |bs|
    ensures BlockOk(bs[i])
  {
    InHeap(bs, i);
  }

  /** Rewriting the header of block `i` changes that block only. */
  lemma RewriteHeader(m: seq<u32>, m': seq<u32>, bs: seq<Block>, i: nat, b: Block)
    requires Tiles(bs) && Headers(m, bs) && i < |bs|
    requires OnlyHeader(m, m', bs[i].addr) && b.addr == bs[i].addr && Header(m', b)
    ensures Headers(m', bs[i := b])
    ensures forall j :: 0 <= j < |bs| && j != i ==> SamePayload(m, m', bs[j])
  {
    hide Tiles, Header, OnlyHeader, SamePayload;
    TileOk(bs, i);
    forall j | 0 <= j < |bs| && j != i ensures Header(m', bs[j]) && SamePayload(m, m', bs[j]) {
      TileOk(bs, j);
      if j < i { Ordered(bs, j, i); } else { Ordered(bs, i, j); }
      HeaderFrame(m, m', bs[i].addr, bs[j]);
    }
    OnlyHeaderLength(m, m', bs[i].addr);
  }

  lemma OnlyHeaderLength(m: seq<u32>, m': seq<u32>, a: nat)
    requires a >= HEAP_START && OnlyHeader(m, m', a)
    ensures |m'| == |m|
  {
  }

  /** Planting a header inside free block `i` changes no block. */
  lemma PlantHeader(m: seq<u32>, m': seq<u32>, bs: seq<Block>, i: nat, a: nat)
    requires Tiles(bs) && Headers(m, bs) && i < |bs|
    requires Aligned(a) && bs[i].addr + 8 <= a && a + 8 <= End(bs[i]) && OnlyHeader(m, m', a)
    ensures Headers(m', bs)
    ensures forall j :: 0 <= j < |bs| && j != i ==> SamePayload(m, m', bs[j])
  {
    hide Tiles, OnlyHeader, SamePayload;
    TileOk(bs, i);
    OnlyHeaderLength(m, m', a);
    forall j | 0 <= j < |bs| && j != i ensures Header(m', bs[j]) && SamePayload(m, m', bs[j]) {
      TileOk(bs, j);
      if j < i { Ordered(bs, j, i); } else { Ordered(bs, i, j); }
      HeaderFrame(m, m', a, bs[j]);
    }
    HeaderFrame(m, m', a, Block(bs[i].addr, 8, bs[i].free));
    OwnHeader(m, m', bs[i], a);
  }

  lemma OwnHeader(m: seq<u32>, m': seq<u32>, b: Block, a: nat)
    requires Header(m, b) && BlockOk(b) && Aligned(a) && b.addr + 8 <= a && OnlyHeader(m, m', a)
    ensures Header(m', b)
  {
    WordOrder(b.addr, a);
  }

  lemma SamePayloadTrans(m: seq<u32>, m1: seq<u32>, m2: seq<u32>, b: Block)
    requires SamePayload(m, m1, b) && SamePayload(m1, m2, b)
    ensures SamePayload(m, m2, b)
  {
  }

  /** No live block outside `i` has lost a payload word. */
  lemma OthersKept(m: seq<u32>, m': seq<u32>, bs: seq<Block>, i: nat)
    requires i < |bs| && forall j :: 0 <= j < |bs| && j != i ==> SamePayload(m, m', bs[j])
    requires bs[i].free || SamePayload(m, m', bs[i])
    ensures forall b :: b in Live(bs) ==> SamePayload(m, m', b)
  {
  }

  class Heap {
    const mem: array<u32>
    ghost var blocks: seq<Block>

    ghost predicate Valid()
      reads this, mem
    {
      mem.Length == HEAP_WORDS && Layout(blocks) && Headers(mem[..], blocks)
    }

    /** `kmalloc_init`: one free block spans the heap. */
    constructor (mem: array<u32>)
      requires mem.Length == HEAP_WORDS
      modifies mem
      ensures this.mem == mem && Valid() && blocks == INITIAL
    {
      this.mem := mem;
      blocks := INITIAL;
      new;
      mem[Word(HEAP_START)] := HEAP_SIZE;
      mem[Word(HEAP_START) + 1] := 1;
    }

    /** The scan of kmalloc: the best fitting block, or NULL. */
    method FindBest(total: u32) returns (best: nat, ghost b: int)
      requires Valid()
      ensures b == BestUpTo(blocks, total, |blocks|)
      ensures best == if b < 0 then NULL else blocks[b].addr
    {
      hide Aligned, Tiles, Coalesced, Word;
      var current, bestSize: u32 := HEAP_START, 0xFFFF_FFFF;
      best, b := NULL, -1;
      ghost var k := 0;
      Walk(blocks, 0);
      while current < HEAP_END
        invariant k <= |blocks| && b == BestUpTo(blocks, total, k)
        invariant current == AddrAt(blocks, k)
        invariant best == if b < 0 then NULL else blocks[b].addr
        invariant bestSize == if b < 0 then 0xFFFF_FFFF else blocks[b].size
        decreases |blocks| - k
      {
        TileOk(blocks, k);
        Walk(blocks, k);
        assert Header(mem[..], blocks[k]);
        if mem[Word(current) + 1] != 0 && mem[Word(current)] >= total {
          if mem[Word(current)] < bestSize {
            best, b := current, k;
            bestSize := mem[Word(current)];
            if bestSize == total {
              PerfectFit(blocks, total, k + 1, |blocks|);
              return;
            }
          }
        }
        current := current + mem[Word(current)];
        k := k + 1;
      }
      Walk(blocks, k);
    }

    /** Carves `total` bytes out of free block `i` at address `best`. */
    method Carve(best: nat, total: u32, ghost i: nat)
      requires Valid() && i < |blocks| && best == blocks[i].addr && FitsIn(blocks[i], total)
      requires total >= 12 && Aligned(total)
      modifies this, mem
      ensures Valid() && blocks == AfterAlloc(old(blocks), i, total)
      ensures forall b :: b in Live(old(blocks)) ==> SamePayload(old(mem[..]), mem[..], b)
    {
      hide Aligned, Tiles, Coalesced;
      ghost var bs, m0 := blocks, mem[..];
      TileOk(bs, i);
      WordInHeap(best);
      assert Header(m0, bs[i]);
      AllocTiles(bs, i, total);
      AllocCoalesced(bs, i, total);
      if mem[Word(best)] >= total + HEADER + MIN_ALLOC_SIZE {
        var newBlock := best + total;
        var rest := mem[Word(best)] - total;
        AlignedSum(best, total);
        WordInHeap(newBlock);
        WordOrder(best, newBlock);
        mem[Word(newBlock)] := rest;
        mem[Word(newBlock) + 1] := 1;
        ghost var m1 := mem[..];
        PlantHeader(m0, m1, bs, i, newBlock);
        mem[Word(best)] := total;
        mem[Word(best) + 1] := 0;
        ghost var m2 := mem[..];
        RewriteHeader(m1, m2, bs, i, Block(best, total, false));
        SplitHeaders(m0, m1, m2, bs, i, total);
      } else {
        mem[Word(best) + 1] := 0;
        RewriteHeader(m0, mem[..], bs, i, Block(best, bs[i].size, false));
        OthersKept(m0, mem[..], bs, i);
      }
      blocks := AfterAlloc(bs, i, total);
    }

    method Kmalloc(size: u32) returns (ptr: nat)
      requires Valid() && size <= 0xFFFF_FFF4
      modifies this, mem
      ensures Valid() && blocks == Step(old(blocks), Malloc(size))
      ensures ptr == NULL <==> size == 0 || forall b :: b in old(blocks) ==> !FitsIn(b, Total(size))
      ensures ptr != NULL ==>
                exists i: nat :: BestFit(old(blocks), Total(size), i) && ptr == old(blocks)[i].addr + HEADER
      ensures ptr != NULL ==> && BestUpTo(old(blocks), Total(size), |old(blocks)|) >= 0
                              && ptr == old(blocks)[BestUpTo(old(blocks), Total(size), |old(blocks)|)].addr + HEADER
      ensures ptr != NULL ==>
                exists b :: b in Live(blocks) && b !in Live(old(blocks)) && ptr == b.addr + 8 && size + 8 <= b.size < size + 35
      ensures forall b :: b in Live(old(blocks)) ==> SamePayload(old(mem[..]), mem[..], b)
    {
      hide Aligned, Tiles, Coalesced, Word, Total, Headers;
      ghost var bs := blocks;
      ghost var total0 := Total(size);
      LiveInHeap(bs, mem[..]);
      if size == 0 {
        return NULL;
      }
      var total := RequestTotal(size);
      TotalFits(size);
      ScanFindsBest(bs, total);
      ghost var i;
      var best;
      best, i := FindBest(total);
      if best == NULL {
        TileAddr(bs, i);
        return NULL;
      }
      AllocTakes(bs, i, total);
      AllocLive(bs, i, total);
      Carve(best, total, i);
      ptr := best + HEADER;
      assert blocks[i] in Live(blocks);
    }

    /** The rounding and header sum of kmalloc. */
    method RequestTotal(size: u32) returns (total: u32)
      ensures total == Total(size)
    {
      var s := size;
      if s % 4 != 0 {
        s := Wrap32(s + (4 - s % 4));
      }
      total := Wrap32(s + HEADER);
    }

    /** Marks block `i` free and absorbs a free successor. */
    method Release(block: nat, ghost i: nat, ghost bs: seq<Block>)
      requires mem.Length == HEAP_WORDS && Tiles(bs) && Headers(mem[..], bs) && i < |bs| && block == bs[i].addr
      modifies mem
      ensures Headers(mem[..], MergeNext(Freed(bs, i), i))
      ensures forall j :: 0 <= j < |bs| && j != i ==> SamePayload(old(mem[..]), mem[..], bs[j])
    {
      hide Aligned, Tiles;
      ghost var m0, f := mem[..], Freed(bs, i);
      TileOk(bs, i);
      WordInHeap(block);
      assert Header(m0, bs[i]);
      mem[Word(block) + 1] := 1;
      ghost var m1 := mem[..];
      RewriteHeader(m0, m1, bs, i, bs[i].(free := true));
      FreedTiles(bs, i);
      var next := block + mem[Word(block)];
      Walk(f, i);
      if i + 1 < |f| {
        TileOk(f, i + 1);
        WordInHeap(next);
        assert Header(m1, f[i + 1]);
      }
      if next < HEAP_END && mem[Word(next) + 1] != 0 {
        mem[Word(block)] := mem[Word(block)] + mem[Word(next)];
        MergeNextHeaders(m1, mem[..], f, i);
        forall j | 0 <= j < |bs| && j != i ensures SamePayload(m0, mem[..], bs[j]) {
          assert f[j] == bs[j];
          SamePayloadTrans(m0, m1, mem[..], bs[j]);
        }
      }
    }

    /** The block in front of the one at `block`, found by a walk from the start. */
    method FindPrev(block: nat, ghost i: nat, ghost bs: seq<Block>) returns (prev: nat)
      requires mem.Length == HEAP_WORDS && Tiles(bs) && Headers(mem[..], bs) && i < |bs| && block == bs[i].addr
      ensures prev == if i == 0 then NULL else bs[i - 1].addr
    {
      hide Aligned, Tiles, Word;
      var current := HEAP_START;
      prev := NULL;
      ghost var k := 0;
      Walk(bs, 0);
      while current < HEAP_END && current != block
        invariant k <= i && current == AddrAt(bs, k)
        invariant prev == if k == 0 then NULL else bs[k - 1].addr
        decreases i - k
      {
        TileOk(bs, k);
        Walk(bs, k);
        assert Header(mem[..], bs[k]);
        prev := current;
        current := current + mem[Word(current)];
        k := k + 1;
      }
      Walk(bs, k);
      if k < i {
        Before(bs, k, i);
      }
    }

    method Kfree(ptr: nat)
      requires Valid() && Legal(blocks, Free(ptr))
      modifies this, mem
      ensures Valid() && blocks == Step(old(blocks), Free(ptr))
      ensures forall b :: b in Live(old(blocks)) && b.addr + HEADER != ptr ==> SamePayload(old(mem[..]), mem[..], b)
    {
      hide Aligned, Tiles, Coalesced, Headers, Owner;
      ghost var bs, m0 := blocks, mem[..];
      if ptr == NULL {
        LiveInHeap(bs, m0);
        return;
      }
      var block := ptr - HEADER;
      ghost var i := Owner(bs, ptr);
      Release(block, i, bs);
      ghost var m1, m := mem[..], MergeNext(Freed(bs, i), i);
      FreedTiles(bs, i);
      MergeNextTiles(Freed(bs, i), i);
      FreeTiles(bs, i);
      FreeCoalesced(bs, i);
      assert m[i].addr == block && m[i].free;
      var prev := FindPrev(block, i, m);
      AbsorbIntoPrev(prev, block, i, m);
      blocks := AfterFree(bs, i);
      KeptAfterFree(m0, m1, mem[..], bs, i);
    }

    /** Absorbs the block at `block` into a free predecessor. */
    method AbsorbIntoPrev(prev: nat, block: nat, ghost i: nat, ghost bs: seq<Block>)
      requires mem.Length == HEAP_WORDS && Tiles(bs) && Headers(mem[..], bs) && i < |bs| && block == bs[i].addr
      requires prev == if i == 0 then NULL else bs[i - 1].addr
      modifies mem
      ensures Headers(mem[..], MergePrev(bs, i))
      ensures forall j :: 0 <= j < |bs| && j != i - 1 ==> SamePayload(old(mem[..]), mem[..], bs[j])
      ensures i > 0 && !bs[i - 1].free ==> mem[..] == old(mem[..])
    {
      hide Aligned, Tiles;
      ghost var m0 := mem[..];
      TileOk(bs, i);
      WordInHeap(block);
      assert Header(m0, bs[i]);
      if i > 0 {
        TileOk(bs, i - 1);
        WordInHeap(prev);
        Walk(bs, i - 1);
        assert Header(m0, bs[i - 1]);
      }
      forall j | 0 <= j < |bs| ensures SamePayload(m0, m0, bs[j]) {
        TileOk(bs, j);
      }
      if prev != NULL && mem[Word(prev) + 1] != 0 {
        if prev + mem[Word(prev)] == block {
          mem[Word(prev)] := mem[Word(prev)] + mem[Word(block)];
          MergePrevHeaders(m0, mem[..], bs, i);
        }
      }
    }
  }

  lemma FreedTiles(bs: seq<Block>, i: nat)
    requires Tiles(bs) && i < |bs|
    ensures Tiles(Freed(bs, i))
  {
  }

  lemma MergeNextHeaders(m: seq<u32>, m': seq<u32>, bs: seq<Block>, i: nat)
    requires Tiles(bs) && Headers(m, bs) && i + 1 < |bs| && bs[i + 1].free && bs[i].addr >= HEAP_START
    requires OnlyHeader(m, m', bs[i].addr)
    requires Header(m', Block(bs[i].addr, bs[i].size + bs[i + 1].size, bs[i].free))
    ensures Headers(m', MergeNext(bs, i))
    ensures forall j :: 0 <= j < |bs| && j != i ==> SamePayload(m, m', bs[j])
  {
    hide Tiles, Header, OnlyHeader, SamePayload;
    var b := Block(bs[i].addr, bs[i].size + bs[i + 1].size, bs[i].free);
    RewriteHeader(m, m', bs, i, b);
    var r := MergeNext(bs, i);
    forall k | 0 <= k < |r| ensures Header(m', r[k]) {
      assert r[k] == bs[i := b][if k <= i then k else k + 1];
    }
  }

  lemma MergePrevHeaders(m: seq<u32>, m': seq<u32>, bs: seq<Block>, i: nat)
    requires Tiles(bs) && Headers(m, bs) && 0 < i < |bs| && bs[i - 1].free && bs[i - 1].addr >= HEAP_START
    requires OnlyHeader(m, m', bs[i - 1].addr)
    requires Header(m', Block(bs[i - 1].addr, bs[i - 1].size + bs[i].size, true))
    ensures Headers(m', MergePrev(bs, i))
    ensures forall j :: 0 <= j < |bs| && j != i - 1 ==> SamePayload(m, m', bs[j])
  {
    hide Tiles, Header, OnlyHeader, SamePayload;
    var b := Block(bs[i - 1].addr, bs[i - 1].size + bs[i].size, true);
    RewriteHeader(m, m', bs, i - 1, b);
    var r := MergePrev(bs, i);
    forall k | 0 <= k < |r| ensures Header(m', r[k]) {
      assert r[k] == bs[i - 1 := b][if k < i then k else k + 1];
    }
  }

  /** Both merges leave the payload of every other live block alone. */
  lemma KeptAfterFree(m0: seq<u32>, m1: seq<u32>, m2: seq<u32>, bs: seq<Block>, i: nat)
    requires i < |bs| && !bs[i].free
    requires forall j :: 0 <= j < |bs| && j != i ==> SamePayload(m0, m1, bs[j])
    requires var m := MergeNext(Freed(bs, i), i);
             && (forall j :: 0 <= j < |m| && j != i - 1 ==> SamePayload(m1, m2, m[j]))
             && (i > 0 && !bs[i - 1].free ==> m1 == m2)
    ensures forall b :: b in Live(bs) && b.addr != bs[i].addr ==> SamePayload(m0, m2, b)
  {
    hide SamePayload;
    var m := MergeNext(Freed(bs, i), i);
    var d := |bs| - |m|;
    forall b | b in Live(bs) && b.addr != bs[i].addr ensures SamePayload(m0, m2, b) {
      var k :| 0 <= k < |bs| && bs[k] == b;
      if k > i {
        assert m[k - d] == b;
      } else {
        assert m[k] == b;
      }
      if k != i - 1 {
        SamePayloadTrans(m0, m1, m2, b);
      }
    }
  }

  lemma TileAddr(bs: seq<Block>, i: int)
    requires Tiles(bs)
    ensures 0 <= i < |bs| ==> bs[i].addr != NULL
  {
    if 0 <= i < |bs| {
      InHeap(bs, i);
    }
  }

  lemma LiveInHeap(bs: seq<Block>, m: seq<u32>)
    requires Tiles(bs)
    ensures forall b :: b in Live(bs) ==> SamePayload(m, m, b)
  {
    forall b | b in Live(bs) ensures SamePayload(m, m, b) {
      var k :| 0 <= k < |bs| && bs[k] == b;
      InHeap(bs, k);
    }
  }

  lemma SplitHeaders(m0: seq<u32>, m1: seq<u32>, m2: seq<u32>, bs: seq<Block>, i: nat, total: nat)
    requires Tiles(bs) && i < |bs| && bs[i].free && Splits(bs[i], total) && total >= 12 && Aligned(total)
    requires Headers(m2, bs[i := Block(bs[i].addr, total, false)])
    requires Header(m1, Block(bs[i].addr + total, bs[i].size - total, true))
    requires bs[i].addr >= HEAP_START && OnlyHeader(m1, m2, bs[i].addr)
    requires forall j :: 0 <= j < |bs| && j != i ==> SamePayload(m0, m1, bs[j])
    requires forall j :: 0 <= j < |bs| && j != i ==> SamePayload(m1, m2, bs[j])
    ensures Headers(m2, AfterAlloc(bs, i, total))
    ensures forall b :: b in Live(bs) ==> SamePayload(m0, m2, b)
  {
    hide Tiles, Header, SamePayload, Aligned, OnlyHeader;
    var c := bs[i := Block(bs[i].addr, total, false)];
    var r := AfterAlloc(bs, i, total);
    var newBlock := Block(bs[i].addr + total, bs[i].size - total, true);
    TileOk(bs, i);
    AlignedSum(bs[i].addr, total);
    AlignedSum(bs[i].size, total);
    HeaderFrame(m1, m2, bs[i].addr, newBlock);
    forall k | 0 <= k < |r| ensures Header(m2, r[k]) {
      if k == i + 1 {
        assert r[k] == newBlock;
      } else {
        assert r[k] == c[if k <= i then k else k - 1];
      }
    }
    forall j | 0 <= j < |bs| && j != i ensures SamePayload(m0, m2, bs[j]) {
      SamePayloadTrans(m0, m1, m2, bs[j]);
    }
    OthersKept(m0, m2, bs, i);
  }
}
