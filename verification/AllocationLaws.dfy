/** Which requests `myallocate` refuses, and how it answers the others, in terms of the list of blocks,
    the region and the pages alone. */
module AllocationLaws {
  import opened HeapBlocks
  import opened Allocation

  /** k pages hold the header and the bytes of the request of a thread that has no pages yet. */
  predicate Starts(count: nat, k: nat, ps: nat, size: nat) {
    count == 0 ==> k * ps > size + 32
  }

  /** A free block of exactly this size at index i, and none before it. */
  predicate FirstExact(bs: seq<Block>, size: nat, i: nat) {
    && i < |bs| && !bs[i].used && bs[i].cap == size
    && forall k :: 0 <= k < i ==> bs[k].used || bs[k].cap != size
  }

  predicate NoExact(bs: seq<Block>, size: nat) {
    forall k :: 0 <= k < |bs| ==> bs[k].used || bs[k].cap != size
  }

  /** Where the user's bytes of an appended block begin: one header after the last block. */
  function Behind(bs: seq<Block>): nat
    requires bs != []
  {
    bs[|bs| - 1].addr + 32 + bs[|bs| - 1].cap + 32
  }

  /** m pages and the rest of the page in which they begin hold these bytes. */
  predicate Extends(bs: seq<Block>, m: nat, ps: nat, size: nat)
    requires bs != [] && ps > 0
  {
    m * ps + (ps - Behind(bs) % ps) > size
  }

  ghost predicate LeastStart(count: nat, k: nat, ps: nat, size: nat) {
    Starts(count, k, ps, size) && forall n: nat :: Starts(count, n, ps, size) ==> k <= n
  }

  ghost predicate LeastExtension(bs: seq<Block>, m: nat, ps: nat, size: nat)
    requires bs != [] && ps > 0
  {
    Extends(bs, m, ps, size) && forall n: nat :: Extends(bs, n, ps, size) ==> m <= n
  }

  /** The block behind the last reaches the end, or the pages for it are more than those left. */
  ghost predicate AppendRefused(bs: seq<Block>, g: Region, count: nat, pagesLeft: nat, size: nat)
    requires bs != [] && g.Valid()
  {
    || Behind(bs) + size >= g.end
    || forall k: nat, m: nat :: Starts(count, k, g.pageSize, size) && Extends(bs, m, g.pageSize, size) ==> k + m > pagesLeft
  }

  /** The first block of a thread without pages reaches the end, or the pages for it are more than
      those left. */
  ghost predicate StartRefused(g: Region, pagesLeft: nat, size: nat) {
    g.base + 32 + size >= g.end || forall k: nat :: Starts(0, k, g.pageSize, size) ==> k > pagesLeft
  }

  /** A request is refused for these reasons and no others: it asks for nothing; the thread has no pages
      and cannot start; or no free block has exactly its size and none can be appended. */
  lemma RefusedIff(bs: seq<Block>, g: Region, count: nat, pagesLeft: nat, size: nat)
    requires g.Valid()
    ensures Allocate(bs, g, count, pagesLeft, size).ptr == 0 <==>
            || size == 0
            || (count == 0 && StartRefused(g, pagesLeft, size))
            || (bs != [] && NoExact(bs, size) && AppendRefused(bs, g, count, pagesLeft, size))
    ensures var o := Allocate(bs, g, count, pagesLeft, size);
            o.ptr == 0 ==> o.blocks == bs && (o.charged != 0 ==> count == 0 && bs != [] && LeastStart(count, o.charged, g.pageSize, size))
  {
    hide PagesOver, MorePages, FirstFit, StartRefused, AppendRefused, LeastStart, LeastExtension;
    if size > 0 {
      var first := if count == 0 then PagesOver(size + HEADER, g.pageSize) else 0;
      FirstChargeIs(count, size, g.pageSize);
      if count == 0 { StartIs(g, pagesLeft, size, first); }
      FitIs(bs, size);
      if bs != [] {
        FurtherChargeIs(bs, g.pageSize, size);
        AppendIs(bs, g, count, pagesLeft, size, first, MorePages(size, LeftInPage(Behind(bs), g.pageSize), g.pageSize));
      }
    }
  }

  lemma FirstChargeIs(count: nat, size: nat, ps: nat)
    requires ps > 0
    ensures LeastStart(count, if count == 0 then PagesOver(size + HEADER, ps) else 0, ps, size)
  {
    hide PagesOver;
  }

  lemma FurtherChargeIs(bs: seq<Block>, ps: nat, size: nat)
    requires bs != [] && ps > 0
    ensures LeastExtension(bs, MorePages(size, LeftInPage(Behind(bs), ps), ps), ps, size)
  {
    hide PagesOver, MorePages;
  }

  lemma StartIs(g: Region, pagesLeft: nat, size: nat, first: nat)
    requires LeastStart(0, first, g.pageSize, size)
    ensures StartRefused(g, pagesLeft, size) <==> g.base + 32 + size >= g.end || first > pagesLeft
  {
    hide Starts;
  }

  lemma AppendIs(bs: seq<Block>, g: Region, count: nat, pagesLeft: nat, size: nat, first: nat, more: nat)
    requires bs != [] && g.Valid()
    requires LeastStart(count, first, g.pageSize, size) && LeastExtension(bs, more, g.pageSize, size)
    ensures AppendRefused(bs, g, count, pagesLeft, size) <==> Behind(bs) + size >= g.end || first + more > pagesLeft
  {
    hide Starts, Extends, Behind;
  }

  lemma FitIs(bs: seq<Block>, size: nat)
    ensures NoExact(bs, size) <==> FirstFit(bs, size, 0) == |bs|
    ensures !NoExact(bs, size) ==> FirstExact(bs, size, FirstFit(bs, size, 0))
  {
  }

  /** Every other request is answered so: with the first block; with the first free block of exactly
      its size, at index i; or with a new block behind the last.  k pages are charged to a thread that
      has none, and m more for an appended block, the least numbers that hold the bytes. */
  lemma AnswerIs(bs: seq<Block>, g: Region, count: nat, pagesLeft: nat, size: nat) returns (i: nat, k: nat, m: nat)
    requires g.Valid() && Allocate(bs, g, count, pagesLeft, size).ptr != 0
    ensures var o := Allocate(bs, g, count, pagesLeft, size);
            && LeastStart(count, k, g.pageSize, size)
            && (bs == [] ==> o == Outcome(g.base + 32, [Block(g.base, size, true)], k))
            && (bs != [] && !NoExact(bs, size) ==>
                  FirstExact(bs, size, i) && o == Outcome(bs[i].addr + 32, bs[i := Block(bs[i].addr, size, true)], k))
            && (bs != [] && NoExact(bs, size) ==>
                  && LeastExtension(bs, m, g.pageSize, size)
                  && o == Outcome(Behind(bs), bs + [Block(Behind(bs) - 32, size, true)], k + m))
  {
    hide PagesOver, MorePages, FirstFit, LeastStart, LeastExtension;
    i, m := FirstFit(bs, size, 0), 0;
    FirstChargeIs(count, size, g.pageSize);
    FitIs(bs, size);
    k := if count == 0 then PagesOver(size + HEADER, g.pageSize) else 0;
    if bs != [] {
      FurtherChargeIs(bs, g.pageSize, size);
      m := MorePages(size, LeftInPage(Behind(bs), g.pageSize), g.pageSize);
    }
  }

  // ---------- freeing ----------

  /** Blocks l to r - 1 are block i and all the free blocks that touch it. */
  predicate RunAround(bs: seq<Block>, i: nat, l: nat, r: nat) {
    && l <= i < r <= |bs| && (forall k :: l <= k < r && k != i ==> !bs[k].used)
    && (l > 0 ==> bs[l - 1].used) && (r < |bs| ==> bs[r].used)
  }

  /** A free at address a does nothing unless a used block is there.  Otherwise that block and the free
      blocks that touch it become one free block from the first header to the last byte; if it would be
      the last block, it goes away. */
  lemma FreeIs(bs: seq<Block>, base: nat, a: nat) returns (i: nat, l: nat, r: nat)
    requires Tiled(bs, base)
    ensures var f := Freed(bs, base, a);
            if forall k :: 0 <= k < |bs| && bs[k].used ==> bs[k].addr != a then f == bs
            else
              && RunAround(bs, i, l, r) && bs[i].used && bs[i].addr == a && bs[l].addr + 32 <= bs[r - 1].addr + 32 + bs[r - 1].cap
              && f == bs[..l] + (if r == |bs| then [] else
                   [Block(bs[l].addr, bs[r - 1].addr + 32 + bs[r - 1].cap - (bs[l].addr + 32), false)] + bs[r..])
  {
    hide Tiled, LeftEnd, RightEnd, IndexOf, FreeAt;
    i := IndexOf(bs, a, 0);
    l, r := 0, 0;
    if i < |bs| && bs[i].used {
      l, r := LeftEnd(bs, i), RightEnd(bs, i + 1);
      FreedRun(bs, base, i, l, r);
    } else {
      NobodyAt(bs, base, i, a);
    }
  }

  lemma FreedRun(bs: seq<Block>, base: nat, i: nat, l: nat, r: nat)
    requires Tiled(bs, base) && i < |bs| && l == LeftEnd(bs, i) && r == RightEnd(bs, i + 1)
    ensures RunAround(bs, i, l, r) && bs[l].addr + 32 <= bs[r - 1].addr + 32 + bs[r - 1].cap
    ensures FreeAt(bs, base, i) == bs[..l] + (if r == |bs| then [] else
              [Block(bs[l].addr, bs[r - 1].addr + 32 + bs[r - 1].cap - (bs[l].addr + 32), false)] + bs[r..])
  {
    hide Tiled, LeftEnd, RightEnd;
    RunHasRoom(bs, base, l, r);
  }

  lemma NobodyAt(bs: seq<Block>, base: nat, i: nat, a: nat)
    requires Tiled(bs, base) && i == IndexOf(bs, a, 0) && (i == |bs| || !bs[i].used)
    ensures forall k :: 0 <= k < |bs| && bs[k].used ==> bs[k].addr != a
  {
    AddressesDiffer(bs, base);
  }

  // ---------- a freed block is used again ----------

  /** Block i is free, with blocks in use on both sides, or nothing before it. */
  predicate Gap(bs: seq<Block>, i: nat, a: nat, size: nat) {
    && i + 1 < |bs| && bs[i] == Block(a, size, false)
    && (i > 0 ==> bs[i - 1].used) && bs[i + 1].used
  }

  /** Freeing a block between used ones changes that block only; the next request of its size is
      answered with it, and the heap is as before, if no such block lies lower. */
  lemma FreedIsReused(bs: seq<Block>, g: Region, i: nat, count: nat, pagesLeft: nat)
    requires g.Valid() && Tiled(bs, g.base) && i < |bs| && bs[i].used && bs[i].cap > 0 && count > 0
    requires i + 1 < |bs| && bs[i + 1].used && (i > 0 ==> bs[i - 1].used)
    ensures var f := FreeAt(bs, g.base, i);
            && Gap(f, i, bs[i].addr, bs[i].cap)
            && (Allocate(f, g, count, pagesLeft, bs[i].cap) == Outcome(bs[i].addr + 32, bs, 0) <==>
                forall k :: 0 <= k < i ==> bs[k].used || bs[k].cap != bs[i].cap)
  {
    hide Tiled, FreeAt;
    var f, n := FreeAt(bs, g.base, i), bs[i].cap;
    FreedAlone(bs, g.base, i);
    FreeKeepsTiled(bs, g.base, i);
    AllocateGap(f, g, i, bs[i].addr, n, count, pagesLeft);
    assert f[i := Block(bs[i].addr, n, true)] == bs;
    assert forall k :: 0 <= k < i ==> f[k] == bs[k];
  }

  lemma FreedAlone(bs: seq<Block>, base: nat, i: nat)
    requires Tiled(bs, base) && i + 1 < |bs| && bs[i + 1].used && (i > 0 ==> bs[i - 1].used)
    ensures FreeAt(bs, base, i) == bs[i := Block(bs[i].addr, bs[i].cap, false)]
  {
    hide Tiled, LeftEnd, RightEnd, FreeAt;
    FreeKeepsOthers(bs, base, i);
    EndsAtOnce(bs, i);
    assert OneFree(bs, i, i + 1) == Block(bs[i].addr, bs[i].cap, false);
  }

  lemma EndsAtOnce(bs: seq<Block>, i: nat)
    requires i + 1 < |bs| && bs[i + 1].used && (i > 0 ==> bs[i - 1].used)
    ensures LeftEnd(bs, i) == i && RightEnd(bs, i + 1) == i + 1
  {
  }

  /** A gap of the size asked for is handed out exactly if no free block of that size lies lower. */
  lemma AllocateGap(f: seq<Block>, g: Region, i: nat, a: nat, size: nat, count: nat, pagesLeft: nat)
    requires g.Valid() && Tiled(f, g.base) && Gap(f, i, a, size) && size > 0 && count > 0
    ensures var o := Allocate(f, g, count, pagesLeft, size);
            && (FirstExact(f, size, i) ==> o == Outcome(a + 32, f[i := Block(a, size, true)], 0))
            && (!FirstExact(f, size, i) ==> 0 < o.ptr < a + 32)
  {
    AddressesDiffer(f, g.base);
    hide Tiled, FirstFit, PagesOver, MorePages, LeftInPage;
    FitIs(f, size);
  }

  /** A call that neither asks for this size nor frees the block at one of these two addresses. */
  predicate Passes(op: Op, size: nat, before: nat, after: nat) {
    match op
    case Alloc(n) => n != size
    case Free(b) => b != before && b != after
  }

  function Before(bs: seq<Block>, i: nat): nat
    requires i < |bs|
  {
    if i > 0 then bs[i - 1].addr else bs[i].addr
  }

  /** The block of bs at index i and its neighbours are those of r at index j. */
  predicate SameGap(bs: seq<Block>, i: nat, r: seq<Block>, j: nat) {
    && 0 <= i < |bs| - 1 && 0 <= j < |r| - 1 && r[j] == bs[i]
    && Gap(bs, i, bs[i].addr, bs[i].cap) && Gap(r, j, bs[i].addr, bs[i].cap)
    && (i > 0 <==> j > 0) && Before(r, j) == Before(bs, i) && r[j + 1].addr == bs[i + 1].addr
  }

  lemma AllocKeepsGap(bs: seq<Block>, base: nat, i: nat, n: nat)
    requires SameGap(bs, i, bs, i) && n != bs[i].cap
    ensures SameGap(bs, i, Allocated(bs, base, n), i)
  {
    hide FirstFit;
  }

  lemma FreeKeepsGap(bs: seq<Block>, base: nat, i: nat, k: nat) returns (j: nat)
    requires Tiled(bs, base) && SameGap(bs, i, bs, i) && k < |bs| && bs[k].used
    requires bs[k].addr != bs[i + 1].addr && bs[k].addr != Before(bs, i)
    ensures SameGap(bs, i, FreeAt(bs, base, k), j)
  {
    hide Tiled, LeftEnd, RightEnd, FreeAt, SameGap;
    var l, r, f := LeftEnd(bs, k), RightEnd(bs, k + 1), FreeAt(bs, base, k);
    FreeKeepsOthers(bs, base, k);
    OutsideRun(bs, i, k, l, r);
    if k < i {
      j := i - r + l + 1;
      GapBehind(bs, i, f, l, r);
    } else {
      j := i;
      GapInFront(bs, i, f, l);
    }
  }

  lemma OutsideRun(bs: seq<Block>, i: nat, k: nat, l: nat, r: nat)
    requires SameGap(bs, i, bs, i) && l <= k < r <= |bs| && bs[k].used
    requires bs[k].addr != bs[i + 1].addr && bs[k].addr != Before(bs, i)
    requires forall b :: b in bs[l..r] && b.used ==> b == bs[k]
    ensures i + 1 < |bs| && if k < i then r < i else i + 1 < l
  {
    forall m | l <= m < r && bs[m].used ensures bs[m] == bs[k] {
      assert bs[l..r][m - l] == bs[m];
    }
  }

  lemma GapBehind(bs: seq<Block>, i: nat, f: seq<Block>, l: nat, r: nat)
    requires SameGap(bs, i, bs, i) && l < r < i
    requires |f| == l + 1 + |bs| - r && f[l + 1..] == bs[r..]
    ensures SameGap(bs, i, f, i - r + l + 1)
  {
    var j := i - r + l + 1;
    assert f[j - 1] == f[l + 1..][j - 2 - l] == bs[r..][i - 1 - r] == bs[i - 1];
    assert f[j] == f[l + 1..][j - 1 - l] == bs[r..][i - r] == bs[i];
    assert f[j + 1] == f[l + 1..][j - l] == bs[r..][i + 1 - r] == bs[i + 1];
  }

  lemma GapInFront(bs: seq<Block>, i: nat, f: seq<Block>, l: nat)
    requires SameGap(bs, i, bs, i) && i + 1 < l <= |bs|
    requires l <= |f| && f[..l] == bs[..l]
    ensures SameGap(bs, i, f, i)
  {
    assert forall k :: 0 <= k < l ==> f[k] == f[..l][k] == bs[..l][k] == bs[k];
  }

  lemma SameGapChains(a: seq<Block>, i: nat, b: seq<Block>, j: nat, c: seq<Block>, k: nat)
    requires SameGap(a, i, b, j) && SameGap(b, j, c, k)
    ensures SameGap(b, j, b, j) && SameGap(a, i, c, k)
  {
  }

  lemma StepKeepsGap(bs: seq<Block>, base: nat, i: nat, op: Op) returns (j: nat)
    requires Tiled(bs, base) && SameGap(bs, i, bs, i) && Passes(op, bs[i].cap, Before(bs, i), bs[i + 1].addr)
    ensures SameGap(bs, i, Run(bs, base, [op]), j)
  {
    hide Tiled, FreeAt, SameGap;
    match op
    case Alloc(n) =>
      AllocKeepsGap(bs, base, i, n);
      j := i;
    case Free(a) =>
      var k := IndexOf(bs, a, 0);
      if k < |bs| && bs[k].used {
        j := FreeKeepsGap(bs, base, i, k);
      } else {
        j := i;
      }
  }

  lemma RunOfOne(bs: seq<Block>, base: nat, ops: seq<Op>)
    requires Tiled(bs, base) && ops != []
    ensures Run(bs, base, ops) == Run(Run(bs, base, ops[..1]), base, ops[1..])
  {
    assert ops[..1][0] == ops[0] && ops[..1][1..] == [];
  }

  lemma {:induction false} RunKeepsGap(bs: seq<Block>, base: nat, i: nat, ops: seq<Op>) returns (j: nat)
    requires Tiled(bs, base) && SameGap(bs, i, bs, i)
    requires forall k :: 0 <= k < |ops| ==> Passes(ops[k], bs[i].cap, Before(bs, i), bs[i + 1].addr)
    ensures SameGap(bs, i, Run(bs, base, ops), j)
    decreases |ops|
  {
    if ops == [] {
      j := i;
    } else {
      var r := Run(bs, base, ops[..1]);
      assert ops[..1] == [ops[0]];
      var h := StepKeepsGap(bs, base, i, ops[0]);
      SameGapChains(bs, i, r, h, r, h);
      j := RunKeepsGap(r, base, h, ops[1..]);
      RunOfOne(bs, base, ops);
      SameGapChains(bs, i, r, h, Run(bs, base, ops), j);
    }
  }

  /** Over runs: a block freed between used ones, and left alone by any number of calls that neither
      ask for its size nor free a neighbour, answers the next request of its size, at its old address,
      exactly if no free block of that size lies lower. */
  lemma FreedIsReusedLater(bs: seq<Block>, g: Region, i: nat, ops: seq<Op>, count: nat, pagesLeft: nat) returns (j: nat)
    requires g.Valid() && Tiled(bs, g.base) && i < |bs| && bs[i].used && bs[i].cap > 0 && count > 0
    requires i + 1 < |bs| && bs[i + 1].used && (i > 0 ==> bs[i - 1].used)
    requires forall k :: 0 <= k < |ops| ==> Passes(ops[k], bs[i].cap, Before(bs, i), bs[i + 1].addr)
    ensures var r := Run(FreeAt(bs, g.base, i), g.base, ops);
            && j < |r| && r[j] == Block(bs[i].addr, bs[i].cap, false)
            && (Allocate(r, g, count, pagesLeft, bs[i].cap).ptr == bs[i].addr + 32 <==>
                forall k :: 0 <= k < j ==> r[k].used || r[k].cap != bs[i].cap)
  {
    var f := FreeAt(bs, g.base, i);
    FreedAlone(bs, g.base, i);
    FreeKeepsTiled(bs, g.base, i);
    hide Tiled, FreeAt, Run, Passes;
    assert SameGap(f, i, f, i) && Before(f, i) == Before(bs, i);
    j := RunKeepsGap(f, g.base, i, ops);
    AllocateGap(Run(f, g.base, ops), g, j, bs[i].addr, bs[i].cap, count, pagesLeft);
  }
}
