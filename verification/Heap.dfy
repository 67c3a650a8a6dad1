/** The heap of one thread as the program has it: headers updated in place, and the page budget that
    an allocation is charged to. */
module Heap {
  import opened HeapBlocks
  import opened HeapHeaders
  import opened HeapFrees
  import opened Allocation
  import PagePool

  class ThreadHeap {
    const g: Region
    const pool: PagePool.Pool
    const thread: nat
    /** The declared repair: keep the successor's link back in step after a merge. */
    const relink: bool
    var hdr: Headers
    ghost var blocks: seq<Block>
    ghost var kept: set<nat>      // dead headers that were in no used block since they died

    ghost predicate Valid()
      reads this
    {
      && g.Valid()
      && thread < pool.counts.Length
      && Right(hdr, blocks, g.base, kept)
    }

    ghost predicate LinksMirrored()
      reads this
    {
      Mirrored(hdr, blocks)
    }

    constructor (g: Region, pool: PagePool.Pool, thread: nat, relink: bool)
      requires g.Valid() && thread < pool.counts.Length
      ensures Valid() && LinksMirrored() && blocks == [] && kept == {}
      ensures this.g == g && this.pool == pool && this.thread == thread && this.relink == relink
    {
      this.g, this.pool, this.thread, this.relink := g, pool, thread, relink;
      hdr := map[];
      blocks := [];
      kept := {};
    }

    /** The loop that finds how many pages the first allocation takes. */
    method FirstPages(size: nat) returns (n: nat)
      requires g.Valid()
      ensures n == PagesOver(size + HEADER, g.pageSize)
    {
      n := 1;
      var least := PagesOver(size + HEADER, g.pageSize);
      LeastIsPositive(size + HEADER, g.pageSize);
      while n * g.pageSize <= size + HEADER
        invariant 1 <= n <= least
        decreases least - n
      {
        n := n + 1;
      }
    }

    /** The loop that finds how many further pages an appended block takes. */
    method FurtherPages(size: nat, left: nat) returns (n: nat)
      requires g.Valid()
      ensures n == MorePages(size, left, g.pageSize)
    {
      n := 0;
      var least := MorePages(size, left, g.pageSize);
      while n * g.pageSize + left <= size
        invariant 0 <= n <= least
        decreases least - n
      {
        n := n + 1;
      }
    }

    /** The search for a free block of exactly the size asked for: it, or else the last block. */
    method FindFit(size: nat) returns (found: bool, at: nat, ghost i: nat)
      requires Valid() && blocks != []
      ensures i == FirstFit(blocks, size, 0)
      ensures found == (FirstFit(blocks, size, 0) < |blocks|)
      ensures at == blocks[if found then FirstFit(blocks, size, 0) else |blocks| - 1].addr
    {
      var temp := g.base;
      at, i := temp, 0;
      assert NodeOk(hdr, blocks, 0);
      while temp != NULL
        invariant 0 <= i <= |blocks|
        invariant temp == if i < |blocks| then blocks[i].addr else NULL
        invariant i > 0 ==> at == blocks[i - 1].addr
        invariant forall k :: 0 <= k < i ==> blocks[k].used || blocks[k].cap != size
        decreases |blocks| - i
      {
        assert NodeOk(hdr, blocks, i);
        if !hdr[temp].inUse && hdr[temp].capacity == size {
          FirstFitIs(blocks, size, i);
          return true, temp, i;
        }
        at := temp;
        temp := hdr[temp].next;
        i := i + 1;
        if i < |blocks| { LaterIsNotNull(blocks, g.base, i); }
      }
      FirstFitIs(blocks, size, i);
      found := false;
    }

    /** The pages that a thread without pages is given before its first allocation. */
    method ChargeFirst(size: nat) returns (ok: bool, ghost first: nat)
      requires Valid() && pool.Valid()
      modifies pool, pool.counts
      ensures pool.Valid()
      ensures first == if old(pool.counts[thread]) == 0 then PagesOver(size + HEADER, g.pageSize) else 0
      ensures ok <==> first == 0 || (g.base + HEADER + size < g.end && first <= old(pool.pagesLeft))
      ensures var charged := if ok then first else 0;
              && pool.counts[..] == old(pool.counts[..])[thread := old(pool.counts[thread]) + charged]
              && pool.pagesLeft == old(pool.pagesLeft) - charged
    {
      hide Right;
      ok, first := true, 0;
      if pool.counts[thread] == 0 {
        first := PagesOver(size + HEADER, g.pageSize);
        LeastIsPositive(size + HEADER, g.pageSize);
        if g.base + HEADER + size >= g.end {
          return false, first;
        }
        var n := FirstPages(size);
        ok := pool.Take(thread, n);
      }
    }

    /** Put a block behind the last block, whose header is at `at`. */
    method Append(at: nat, size: nat) returns (ptr: nat)
      requires Valid() && pool.Valid() && blocks != [] && at == blocks[|blocks| - 1].addr
      modifies this, pool, pool.counts
      ensures Valid() && pool.Valid() && (old(LinksMirrored()) ==> LinksMirrored())
      ensures var p := old(Top(blocks, g.base)) + HEADER;
              var more := MorePages(size, LeftInPage(p, g.pageSize), g.pageSize);
              var ok := p + size < g.end && more <= old(pool.pagesLeft);
              && ptr == (if ok then p else 0)
              && (ok ==> at in old(hdr)) && hdr == (if ok then PutLast(old(hdr), at, p - HEADER, size) else old(hdr))
              && blocks == old(blocks) + (if ok then [Block(p - HEADER, size, true)] else [])
              && kept == (if ok then Still(old(kept), blocks) else old(kept))
              && pool.counts[..] == old(pool.counts[..])[thread := old(pool.counts[thread]) + if ok then more else 0]
              && pool.pagesLeft == old(pool.pagesLeft) - if ok then more else 0
    {
      AppendIsRight(hdr, blocks, g.base, size, kept);
      hide Right, Mirrored, Still, Untouched;
      var node := at + HEADER + hdr[at].capacity;
      if node + HEADER + size >= g.end {
        return 0;
      }
      var n := FurtherPages(size, LeftInPage(node + HEADER, g.pageSize));
      var ok := pool.Take(thread, n);
      if !ok {
        return 0;
      }
      hdr := PutLast(hdr, at, node, size);
      blocks := blocks + [Block(node, size, true)];
      kept := Still(kept, blocks);
      return node + HEADER;
    }

    /** Take the free block i, whose header is at `at`. */
    method Reuse(at: nat, ghost i: nat)
      requires Valid() && i < |blocks| && at == blocks[i].addr && !blocks[i].used
      modifies this
      ensures Valid() && (old(LinksMirrored()) ==> LinksMirrored())
      ensures blocks == old(blocks)[i := old(blocks)[i].(used := true)] && kept == Still(old(kept), blocks)
      ensures at in old(hdr) && hdr == PutUsed(old(hdr), at)
    {
      ReuseIsRight(hdr, blocks, g.base, i, kept);
      hide Right, Mirrored, Still, Untouched;
      hdr := PutUsed(hdr, at);
      blocks := blocks[i := blocks[i].(used := true)];
      kept := Still(kept, blocks);
    }

    /** Allocate size bytes; 0 is the null pointer. */
    method MyAllocate(size: nat) returns (ptr: nat)
      requires Valid() && pool.Valid()
      modifies this, pool, pool.counts
      ensures Valid() && pool.Valid() && (old(LinksMirrored()) ==> LinksMirrored())
      ensures var o := Allocate(old(blocks), g, old(pool.counts[thread]), old(pool.pagesLeft), size);
              && ptr == o.ptr && blocks == o.blocks
              && (forall b :: b in old(blocks) ==> b.addr in old(hdr))
              && hdr == (if ptr != 0 then AllocHeaders(old(hdr), old(blocks), g.base, size) else old(hdr))
              && kept == (if ptr != 0 then Still(old(kept), blocks) else old(kept))
              && pool.counts[..] == old(pool.counts[..])[thread := old(pool.counts[thread]) + o.charged]
              && pool.pagesLeft == old(pool.pagesLeft) - o.charged
    {
      hide Right, Tiled, Mirrored, PagesOver, MorePages, LeftInPage, FirstFit, Still;
      HaveHeaders(hdr, blocks, g.base, kept);
      if size <= 0 {
        return 0;
      }
      HeadTells(hdr, blocks, g.base, kept);
      var ok, first := ChargeFirst(size);
      if !ok {
        return 0;
      }
      if g.base !in hdr || hdr[g.base].signature != MAGIC {
        FirstIsRight(hdr, g.base, size, kept);
        hdr := PutFirst(hdr, g.base, size);
        blocks := [Block(g.base, size, true)];
        kept := Still(kept, blocks);
        return g.base + HEADER;
      }
      var found, at, i := FindFit(size);
      if found {
        Reuse(at, i);
        return at + HEADER;
      }
      ptr := Append(at, size);
    }

    /** The loop back: while the node before `left` says that it is free, `left` goes into it.  Where
        only an owner's bytes can be read, and they lead nowhere or up, the loop ends here. */
    method MergeLeft(c: nat) returns (left: nat)
      requires c in hdr
      modifies this`hdr
      ensures (hdr, left) == LoopBack(old(hdr), c) && left in hdr
    {
      hide MergeBack;
      left := c;
      while hdr[left].prev != NULL
        invariant left in hdr && LoopBack(hdr, left) == LoopBack(old(hdr), c)
        decreases left
      {
        var p := hdr[left].prev;
        if p !in hdr || p >= left || hdr[p].inUse {
          break;
        }
        MergeHas(hdr, left);
        hdr := MergeBack(hdr, left);
        left := p;
      }
    }

    /** The loop forth: while the node after c is free, it goes into c. */
    method MergeRight(c: nat, ghost i: nat)
      requires HEADER <= g.base && Tiled(blocks, g.base) && Ahead(hdr, blocks, i + 1, c)
      modifies this`hdr
      ensures hdr == LoopForth(old(hdr), c, Top(blocks, g.base))
      ensures c in hdr && (hdr[c].next == NULL || hdr[c].next in hdr)
    {
      hide MergeForth, Ahead, Tiled;
      ghost var bs, r := blocks, i + 1;
      AheadIs(hdr, bs, g.base, r, c);
      while hdr[c].next != NULL
        invariant blocks == bs && Ahead(hdr, bs, r, c) && c in hdr && r <= |bs|
        invariant LoopForth(hdr, c, Top(bs, g.base)) == LoopForth(old(hdr), c, Top(bs, g.base))
        decreases |bs| - r
      {
        AheadIs(hdr, bs, g.base, r, c);
        if hdr[hdr[c].next].inUse {
          break;
        }
        AheadStep(hdr, bs, g.base, r, c);
        hdr := MergeForth(hdr, c);
        r := r + 1;
        AheadIs(hdr, bs, g.base, r, c);
      }
      AheadIs(hdr, bs, g.base, r, c);
    }

    /** Take the merged node out if nothing follows it; otherwise, if so declared, repair the link
        back of what follows. */
    method FinishMerge(c: nat)
      requires c in hdr && (hdr[c].next == NULL || hdr[c].next in hdr)
      modifies this`hdr
      ensures hdr == Finish(old(hdr), c, relink)
    {
      if hdr[c].next == NULL {
        if hdr[c].prev == NULL || (hdr[c].prev in hdr && hdr[c].prev != c) {
          hdr := Trim(hdr, c);
        }
      } else if relink {
        hdr := hdr[hdr[c].next := hdr[hdr[c].next].(prev := c)];
      }
    }

    /** The three parts of a free, on the headers; c is the header of the used block i. */
    method FreeBlock(c: nat, ghost i: nat)
      requires Valid() && i < |blocks| && c == blocks[i].addr && c in hdr
      modifies this`hdr
      ensures hdr == FreeHeaders(old(hdr), c, Top(blocks, g.base), relink)
    {
      hide Right, LoopBack, LoopForth, Finish, Ahead, Tiled;
      RightIsTiled(hdr, blocks, g.base, kept);
      StartAhead(hdr, blocks, g.base, kept, i);
      hdr := Release(hdr, c);
      BackKeepsAhead(hdr, blocks, g.base, i + 1, c);
      var left := MergeLeft(c);
      MergeRight(left, i);
      FinishMerge(left);
    }

    /** Free the block at ptr; anything else that is passed changes nothing.  `blocks` becomes what the
        blocks should be.  A sound free leaves headers that stand for them, and writes in no other
        block in use; and a free is sound exactly if it does so whatever the owners wrote. */
    method MyDeallocate(ptr: nat)
      requires Valid()
      modifies this
      ensures var at := ptr - HEADER;
              if ptr < g.base || ptr >= g.end then
                Valid() && blocks == old(blocks) && hdr == old(hdr) && kept == old(kept)
              else
              && Tiled(old(blocks), g.base)
              && blocks == Freed(old(blocks), g.base, at) && kept == FreedKept(old(blocks), g.base, at, old(kept))
              && hdr == FreedHeaders(old(hdr), at, Top(old(blocks), g.base), relink)
              && (SoundFree(old(hdr), old(blocks), at, old(kept)) ==>
                    Valid() && Untouched(old(hdr), hdr, old(blocks), IndexOf(old(blocks), at, 0)))
              && (SoundFree(old(hdr), old(blocks), at, old(kept)) <==>
                    forall m :: Like(old(hdr), m, old(blocks), old(kept)) ==>
                      FreeSucceeds(m, old(blocks), g.base, at, old(kept), relink))
              && (old(LinksMirrored()) ==> Valid() && (LinksMirrored() <==> relink || KeepsLinks(old(blocks), at)))
    {
      hide Right, Mirrored, Tiled, FreeHeaders, FreeAt, SoundFree, KeepsLinks, Like, FreeSucceeds, Untouched, FreeKept;
      if ptr < g.base || ptr >= g.end {
        return;
      }
      var c := ptr - HEADER;
      ghost var i := IndexOf(blocks, c, 0);
      NodeAt(hdr, blocks, g.base, c, kept);
      FreedIsRightIff(hdr, blocks, g.base, c, kept, relink);
      if SoundFree(hdr, blocks, c, kept) { FreedIsRight(hdr, blocks, g.base, c, kept, relink); }
      if Mirrored(hdr, blocks) { MirroredIsSound(hdr, blocks, c, kept); }
      if c !in hdr || hdr[c].signature != MAGIC {
        return;
      }
      if !hdr[c].inUse {
        return;
      }
      FreeBlock(c, i);
      kept := FreeKept(blocks, g.base, i, kept);
      blocks := FreeAt(blocks, g.base, i);
    }
  }

  lemma MergeHas(h: Headers, c: nat)
    requires FreeBefore(h, c)
    ensures h[c].prev in MergeBack(h, c)
  {
  }

  /** The node at c leads to block r, and from there on the headers lead along the blocks. */
  ghost predicate Ahead(h: Headers, bs: seq<Block>, r: nat, c: nat) {
    && 0 < r <= |bs| && c in h && c <= bs[r - 1].addr && h[c].next == AddrOr(bs, r)
    && forall k :: r <= k < |bs| ==> NodeOk(h, bs, k)
  }

  lemma StartAhead(h: Headers, bs: seq<Block>, base: nat, kept: set<nat>, i: nat)
    requires Right(h, bs, base, kept) && i < |bs|
    ensures bs[i].addr in h && Ahead(Release(h, bs[i].addr), bs, i + 1, bs[i].addr)
  {
    OneNode(h, bs, base, kept, i);
    RightIsTiled(h, bs, base, kept);
    AddressesDiffer(bs, base);
    var e := Release(h, bs[i].addr);
    forall k | i + 1 <= k < |bs| ensures NodeOk(e, bs, k) {
      OneNode(h, bs, base, kept, k);
    }
  }

  lemma AheadIs(h: Headers, bs: seq<Block>, base: nat, r: nat, c: nat)
    requires HEADER <= base && Tiled(bs, base) && Ahead(h, bs, r, c)
    ensures 0 < r <= |bs| && c in h && h[c].next == AddrOr(bs, r)
    ensures r < |bs| ==> NULL < bs[r].addr && bs[r].addr in h && (FreeAfter(h, c, Top(bs, base)) <==> !h[bs[r].addr].inUse)
  {
    AddressesDiffer(bs, base);
    if r < |bs| { assert NodeOk(h, bs, r); }
  }

  lemma AheadStep(h: Headers, bs: seq<Block>, base: nat, r: nat, c: nat)
    requires Tiled(bs, base) && Ahead(h, bs, r, c) && FreeAfter(h, c, Top(bs, base)) && r < |bs|
    ensures Ahead(MergeForth(h, c), bs, r + 1, c)
  {
    AddressesDiffer(bs, base);
    assert NodeOk(h, bs, r);
    var e := MergeForth(h, c);
    forall k | r + 1 <= k < |bs| ensures NodeOk(e, bs, k) {
      assert NodeOk(h, bs, k);
    }
  }

  /** The loop back writes nothing from block r on. */
  lemma {:induction false} BackKeepsAhead(h: Headers, bs: seq<Block>, base: nat, r: nat, c: nat)
    requires Tiled(bs, base) && Ahead(h, bs, r, c)
    ensures var (e, d) := LoopBack(h, c); Ahead(e, bs, r, d)
    decreases c
  {
    if FreeBefore(h, c) {
      BackStepAhead(h, bs, base, r, c);
      hide Ahead, Tiled, MergeBack;
      BackKeepsAhead(MergeBack(h, c), bs, base, r, h[c].prev);
    }
  }

  lemma BackStepAhead(h: Headers, bs: seq<Block>, base: nat, r: nat, c: nat)
    requires Tiled(bs, base) && Ahead(h, bs, r, c) && FreeBefore(h, c)
    ensures Ahead(MergeBack(h, c), bs, r, h[c].prev)
  {
    AddressesDiffer(bs, base);
    var e := MergeBack(h, c);
    forall k | r <= k < |bs| ensures NodeOk(e, bs, k) {
      assert NodeOk(h, bs, k);
    }
  }

  lemma LeastIsPositive(x: nat, pageSize: nat)
    requires pageSize > 0
    ensures PagesOver(x, pageSize) >= 1
  {
    assert 0 * pageSize == 0;
  }

  lemma LaterIsNotNull(bs: seq<Block>, base: nat, i: nat)
    requires Tiled(bs, base) && base > 0 && i < |bs|
    ensures bs[i].addr != NULL
  {
    AddressesDiffer(bs, base);
  }

  lemma FirstFitIs(bs: seq<Block>, size: nat, i: nat)
    requires i <= |bs| && (i < |bs| ==> !bs[i].used && bs[i].cap == size)
    requires forall k :: 0 <= k < i ==> bs[k].used || bs[k].cap != size
    ensures FirstFit(bs, size, 0) == i
  {
  }
}
