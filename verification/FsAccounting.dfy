/**
 Free-block accounting: disjoint extents cannot use more than the region
 offers, so the recount of `fs_write_file` is exact.
 */
module FsAccounting {
  import opened Machine
  import opened FsLayout
  import opened FsSpec
  import opened Counting

  /** free_blocks plus the blocks of all files is the size of the data region. */
  ghost predicate FreeExact(es: seq<DirEntry>, total: nat, free: nat) {
    free + UsedBlocks(es) == total - DATA_START
  }

  function Extent(e: DirEntry): (s: set<nat>)
    ensures |s| == FileBlocks(e)
    ensures forall b: nat :: b in s ==> Covers(e, b)
  {
    if FileBlocks(e) == 0 then {} else Range(e.start, Blocks(e.size))
  }

  /** The union of the first `k` extents, pairwise disjoint, has as many blocks as they sum to. */
  lemma {:induction false} UnionSize(es: seq<DirEntry>, limit: nat, k: nat) returns (u: set<nat>)
    requires DirOk(es, limit) && k <= |es|
    ensures |u| == UsedBlocks(es[..k])
    ensures forall b :: b in u ==> exists i :: 0 <= i < k && Covers(es[i], b)
  {
    hide DirOk, Covers, UsedBlocks, Extent;
    UsedBlocksFirst(es, k);
    if k == 0 {
      u := {};
    } else {
      var v := UnionSize(es, limit, k - 1);
      var x := Extent(es[k - 1]);
      forall b | b in v ensures b !in x {
        var i :| 0 <= i < k - 1 && Covers(es[i], b);
        OtherExtent(es, limit, i, k - 1, b);
      }
      DisjointUnion(v, x);
      u := v + x;
    }
  }

  lemma UsedBlocksFirst(es: seq<DirEntry>, k: nat)
    requires k <= |es|
    ensures UsedBlocks(es[..k]) == if k == 0 then 0 else UsedBlocks(es[..k - 1]) + FileBlocks(es[k - 1])
  {
    if k > 0 {
      assert es[..k][..k - 1] == es[..k - 1];
    }
  }

  lemma OtherExtent(es: seq<DirEntry>, limit: nat, i: nat, j: nat, b: nat)
    requires DirOk(es, limit) && i < j < |es| && Covers(es[i], b)
    ensures b !in Extent(es[j])
  {
  }

  lemma UsedBounded(es: seq<DirEntry>, limit: nat, k: nat)
    requires DirOk(es, limit) && k <= |es|
    ensures UsedBlocks(es[..k]) <= limit
  {
    var u := UnionSize(es, limit, k);
    forall b | b in u ensures b in Range(0, limit) {
      var i :| 0 <= i < k && Covers(es[i], b);
    }
    SubsetSize(u, Range(0, limit));
  }

  /** However far the count had drifted, the recount of `fs_write_file` is exact. */
  lemma RecountExact(es: seq<DirEntry>, total: u32)
    requires total >= DATA_START && DirOk(es, Limit(total))
    ensures FreeExact(es, total, Recount(es, total))
  {
    UsedBounded(es, Limit(total), |es|);
    assert es[..|es|] == es;
  }

  lemma {:induction false} UsedBlocksUpdate(es: seq<DirEntry>, i: nat, e: DirEntry)
    requires i < |es|
    ensures UsedBlocks(es[i := e]) == UsedBlocks(es) - FileBlocks(es[i]) + FileBlocks(e)
  {
    var n := |es| - 1;
    if i == n {
      assert es[i := e][..n] == es[..n];
    } else {
      UsedBlocksUpdate(es[..n], i, e);
      assert es[i := e][..n] == es[..n][i := e];
    }
  }
}
