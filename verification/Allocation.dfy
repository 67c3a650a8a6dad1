/** What one call of `myallocate` decides: to refuse, or which block to hand out and how many pages
    to charge for it; and when the charge covers the block. */
module Allocation {
  import opened HeapBlocks

  /** ptr 0 is the null pointer: the request is refused. */
  datatype Outcome = Outcome(ptr: nat, blocks: seq<Block>, charged: nat)

  /** The least number of pages with more than x bytes. */
  function PagesOver(x: nat, pageSize: nat): (n: nat)
    requires pageSize > 0
    ensures n * pageSize > x && forall m: nat :: m * pageSize > x ==> n <= m
  {
    var q := x / pageSize;
    assert (q + 1) * pageSize > x;
    forall m: nat | m * pageSize > x ensures q + 1 <= m {
      assert m <= q ==> m * pageSize <= q * pageSize;
    }
    q + 1
  }

  /** The bytes from address x to the end of its page. */
  function LeftInPage(x: nat, pageSize: nat): (n: nat)
    requires pageSize > 0
    ensures 0 < n <= pageSize
  {
    pageSize - x % pageSize
  }

  /** The least number of further pages that, with `left` bytes at hand, hold more than size bytes. */
  function MorePages(size: nat, left: nat, pageSize: nat): (n: nat)
    requires pageSize > 0
    ensures n * pageSize + left > size && forall m: nat :: m * pageSize + left > size ==> n <= m
  {
    if size < left then 0 else
      assert forall m: nat :: m * pageSize + left > size ==> m * pageSize > size - left;
      PagesOver(size - left, pageSize)
  }

  /** The heap's own limits: its first and one-past-last address, and the page size. */
  datatype Region = Region(base: nat, end: nat, pageSize: nat)
  {
    predicate Valid() {
      HEADER <= base <= end && pageSize > 0 && base % pageSize == 0
    }
  }

  function Allocate(bs: seq<Block>, g: Region, count: nat, pagesLeft: nat, size: nat): Outcome
    requires g.Valid()
  {
    var first := if count == 0 then PagesOver(size + HEADER, g.pageSize) else 0;
    if size == 0 then Outcome(0, bs, 0)
    else if count == 0 && (g.base + HEADER + size >= g.end || first > pagesLeft) then Outcome(0, bs, 0)
    else if bs == [] then Outcome(g.base + HEADER, [Block(g.base, size, true)], first)
    else if FirstFit(bs, size, 0) < |bs| then Outcome(Place(bs, g.base, size) + HEADER, Allocated(bs, g.base, size), first)
    else
      var p := Top(bs, g.base) + HEADER;
      var more := MorePages(size, LeftInPage(p, g.pageSize), g.pageSize);
      if p + size >= g.end || more > pagesLeft - first then Outcome(0, bs, first)
      else Outcome(p, Allocated(bs, g.base, size), first + more)
  }

  /** A request is answered with the block that Allocated adds or takes, or leaves the heap alone. */
  lemma OutcomeIsAllocated(bs: seq<Block>, g: Region, count: nat, pagesLeft: nat, size: nat)
    requires g.Valid()
    ensures var o := Allocate(bs, g, count, pagesLeft, size);
            && (o.ptr == 0 ==> o.blocks == bs)
            && (o.ptr != 0 ==> size > 0 && o.ptr == Place(bs, g.base, size) + HEADER && o.blocks == Allocated(bs, g.base, size))
            && o.charged <= pagesLeft
  {
  }

  /** The blocks end below the region's end.  The bound is strict because the program's own check is. */
  predicate InBounds(bs: seq<Block>, g: Region) {
    bs == [] || Top(bs, g.base) < g.end
  }

  /** A successful allocation stays in bounds, except that the first block of a list that had been
      emptied is not checked. */
  lemma StaysInBoundsIff(bs: seq<Block>, g: Region, count: nat, pagesLeft: nat, size: nat)
    requires g.Valid() && Tiled(bs, g.base) && InBounds(bs, g)
    requires Allocate(bs, g, count, pagesLeft, size).ptr != 0
    ensures InBounds(Allocate(bs, g, count, pagesLeft, size).blocks, g) <==>
            (bs != [] || count == 0 || g.base + HEADER + size < g.end)
  {
    TopAfter(bs, g.base, size);
  }

  /** Allocate, free again, and ask for a block as large as you like: it is handed out, past the end of
      the region and of the pages counted. */
  lemma EmptiedListPassesEnd(g: Region, pagesLeft: nat, first: nat, size: nat)
    requires g.Valid() && size > 0 && g.base + HEADER + size >= g.end
    requires Allocate([], g, 0, pagesLeft, first).ptr != 0
    ensures var o := Allocate([], g, 0, pagesLeft, first);
            && o.charged > 0 && Tiled(o.blocks, g.base) && Freed(o.blocks, g.base, g.base) == []
            && var n := Allocate([], g, o.charged, pagesLeft - o.charged, size);
               n.ptr == g.base + HEADER && n.charged == 0 && !InBounds(n.blocks, g)
  {
    var o := Allocate([], g, 0, pagesLeft, first);
    assert 0 * g.pageSize == 0;
    assert o.blocks == [Block(g.base, first, true)];
    hide PagesOver;
    FreedOnly(o.blocks, g.base);
  }

  lemma FreedOnly(bs: seq<Block>, base: nat)
    requires Tiled(bs, base) && |bs| == 1 && bs[0].used
    ensures Freed(bs, base, base) == []
  {
    assert IndexOf(bs, base, 0) == 0;
    assert LeftEnd(bs, 0) == 0 && RightEnd(bs, 1) == 1;
  }

  /** A block of 4040 bytes fills all but 24 bytes of one page of 4096.  The header of the next block
      ends in the second page, for which nothing is charged. */
  lemma AppendedBlockUncovered()
    ensures var g := Region(4096, 409600, 4096);
            var bs := [Block(4096, 4040, true)];
            && Allocate([], g, 0, 100, 4040) == Outcome(4128, bs, 1)
            && var o := Allocate(bs, g, 1, 99, 10);
               o.ptr != 0 && o.charged == 0 && Covered(bs, g, 1) && !Covered(o.blocks, g, 1)
  {
    var bs := [Block(4096, 4040, true)];
    assert FirstFit(bs, 10, 0) == 1;
  }

  lemma TopAfter(bs: seq<Block>, base: nat, size: nat)
    ensures var r := Allocated(bs, base, size);
            r != [] && Top(r, base) == if FirstFit(bs, size, 0) < |bs| then Top(bs, base) else Top(bs, base) + HEADER + size
  {
  }

  /** Every byte of the blocks lies in pages 0 to count - 1, which the fault handler accepts. */
  predicate Covered(bs: seq<Block>, g: Region, count: nat) {
    bs == [] || Top(bs, g.base) <= g.base + count * g.pageSize
  }

  /** The pages charged cover an appended block whose header ends at p, before the end of the counted
      pages, or in the first page that is not counted if the block then ends with a page. */
  predicate AppendCovers(p: nat, g: Region, count: nat, size: nat)
    requires g.Valid()
  {
    || p < g.base + count * g.pageSize
    || (p < g.base + (count + 1) * g.pageSize && (p + size) % g.pageSize == 0)
  }

  /** The pages charged cover the new block exactly when: a free block is reused; or it is the
      thread's first; or the list had been emptied and the block fits the pages counted before, for
      which nothing is charged; or it is appended where the charge, which starts from the page in which
      the header ends, reaches far enough. */
  lemma StaysCoveredIff(bs: seq<Block>, g: Region, count: nat, pagesLeft: nat, size: nat)
    requires g.Valid() && Tiled(bs, g.base) && Covered(bs, g, count)
    requires Allocate(bs, g, count, pagesLeft, size).ptr != 0
    ensures var o := Allocate(bs, g, count, pagesLeft, size);
            Covered(o.blocks, g, count + o.charged) <==>
              if bs == [] then count == 0 || HEADER + size <= count * g.pageSize
              else FirstFit(bs, size, 0) < |bs| || AppendCovers(Top(bs, g.base) + HEADER, g, count, size)
  {
    hide Tiled, FirstFit, PagesOver, MorePages, LeftInPage, Top, AppendCovers;
    TopAfter(bs, g.base, size);
    OutcomeIsAllocated(bs, g, count, pagesLeft, size);
    if bs == [] {
      FirstCoversIff(g, count, size);
    } else {
      NonEmptyTop(bs, g.base);
      ChargedFor(bs, g, count, pagesLeft, size);
      if FirstFit(bs, size, 0) == |bs| {
        AppendCoversIff(Top(bs, g.base) + HEADER, g, count, size);
      }
    }
  }

  /** What is charged where there are blocks, and so counted pages. */
  lemma ChargedFor(bs: seq<Block>, g: Region, count: nat, pagesLeft: nat, size: nat)
    requires g.Valid() && bs != [] && Top(bs, g.base) > g.base && Covered(bs, g, count)
    requires Allocate(bs, g, count, pagesLeft, size).ptr != 0
    ensures count > 0
    ensures var p := Top(bs, g.base) + HEADER;
            Allocate(bs, g, count, pagesLeft, size).charged ==
              if FirstFit(bs, size, 0) < |bs| then 0 else MorePages(size, LeftInPage(p, g.pageSize), g.pageSize)
  {
    hide FirstFit, PagesOver, MorePages, LeftInPage, Top;
    assert count == 0 ==> count * g.pageSize == 0;
  }

  lemma FirstCoversIff(g: Region, count: nat, size: nat)
    requires g.Valid()
    ensures HEADER + size <= (count + if count == 0 then PagesOver(size + HEADER, g.pageSize) else 0) * g.pageSize <==>
            count == 0 || HEADER + size <= count * g.pageSize
  {
  }

  lemma NonEmptyTop(bs: seq<Block>, base: nat)
    requires Tiled(bs, base) && bs != []
    ensures Top(bs, base) > base
  {
    AddressesDiffer(bs, base);
  }

  /** Appending at p, behind blocks that end in the counted pages. */
  lemma AppendCoversIff(p: nat, g: Region, count: nat, size: nat)
    requires g.Valid() && size > 0 && g.base <= p - HEADER <= g.base + count * g.pageSize
    ensures var more := MorePages(size, LeftInPage(p, g.pageSize), g.pageSize);
            p + size <= g.base + (count + more) * g.pageSize <==> AppendCovers(p, g, count, size)
  {
    hide PagesOver, MorePages, PageOf, LeftInPage;
    var ps, left := g.pageSize, LeftInPage(p, g.pageSize);
    var n, e, r := PageOf(p, g.base, ps), (size - left) / ps, (size - left) % ps;
    PageEnds(p, g.base, ps);
    MoreIs(size, left, ps);
    EndsWithPage(p, g.base, ps, size);
    Reached(p, g.base, ps, n, count, e, size, left);
    CompareMultiples(n, count, ps, r);
    BelowPage(p, g.base, ps, n, count, left);
    BelowPage(p, g.base, ps, n, count + 1, left);
  }

  lemma BelowPage(p: nat, base: nat, ps: nat, n: nat, count: nat, left: nat)
    requires p + left == base + (n + 1) * ps && 0 < left <= ps
    ensures p < base + count * ps <==> n < count
  {
    assert (n + 1) * ps == n * ps + ps;
    CompareMultiples(n, count, ps, ps - left);
  }

  /** With the rest of p's page and e + 1 more pages behind the counted ones. */
  lemma Reached(p: nat, base: nat, ps: nat, n: nat, count: nat, e: int, size: nat, left: nat)
    requires ps > 0 && p + left == base + (n + 1) * ps && e == (size - left) / ps
    ensures p + size <= base + (count + e + 1) * ps <==> n * ps + (size - left) % ps <= count * ps
  {
    var r := (size - left) % ps;
    assert size - left == e * ps + r;
    assert (count + e + 1) * ps == count * ps + e * ps + ps;
    assert (n + 1) * ps == n * ps + ps;
  }

  /** The page, counted from the base, that p lies in. */
  function PageOf(p: nat, base: nat, ps: nat): nat
    requires ps > 0 && p >= base
  {
    (p - base) / ps
  }

  lemma PageEnds(p: nat, base: nat, ps: nat)
    requires ps > 0 && base % ps == 0 && p >= base
    ensures p + LeftInPage(p, ps) == base + (PageOf(p, base, ps) + 1) * ps
  {
    var b, n, r := base / ps, PageOf(p, base, ps), (p - base) % ps;
    assert base == b * ps && p - base == n * ps + r;
    assert p == (b + n) * ps + r;
    RemainderIs(p, ps, b + n, r);
  }

  lemma RemainderIs(x: int, d: nat, q: int, r: nat)
    requires r < d && x == q * d + r
    ensures x / d == q && x % d == r
  {
    var q', r' := x / d, x % d;
    assert x == q' * d + r';
    SameQuotient(d, q - q', q, q', r' - r);
  }

  lemma SameQuotient(d: int, k: int, q: int, q': int, r: int)
    requires k == q - q' && q * d - q' * d == r && -d < r < d
    ensures q == q'
  {
    assert k * d == q * d - q' * d;
    MultipleSize(k, d);
  }

  lemma {:induction false} MultipleSize(k: int, d: nat)
    ensures (k > 0 ==> k * d >= d) && (k < 0 ==> k * d + d <= 0)
    decreases if k < 0 then -k else k
  {
    if k > 0 {
      MultipleSize(k - 1, d);
      assert k * d == (k - 1) * d + d;
    } else if k < 0 {
      MultipleSize(k + 1, d);
      assert k * d == (k + 1) * d - d;
    }
  }

  /** p + size ends with a page exactly when size exceeds the rest of p's page by whole pages. */
  lemma EndsWithPage(p: nat, base: nat, ps: nat, size: nat)
    requires ps > 0 && base % ps == 0 && p >= base
    ensures (p + size) % ps == 0 <==> (size - LeftInPage(p, ps)) % ps == 0
  {
    var d := size - LeftInPage(p, ps);
    var k, e, r := base / ps + PageOf(p, base, ps) + 1, d / ps, d % ps;
    PageEnds(p, base, ps);
    assert base == base / ps * ps && d == e * ps + r;
    assert k * ps == base / ps * ps + (PageOf(p, base, ps) + 1) * ps;
    assert p + size == (k + e) * ps + r by { assert (k + e) * ps == k * ps + e * ps; }
    RemainderIs(p + size, ps, k + e, r);
  }

  lemma MoreIs(size: nat, left: nat, ps: nat)
    requires ps > 0 && size > 0 && 0 < left <= ps
    ensures MorePages(size, left, ps) == (size - left) / ps + 1
  {
    var d := size - left;
    var e, r := d / ps, d % ps;
    assert d == e * ps + r;
    if d < 0 {
      RemainderIs(d, ps, -1, d + ps);
    } else {
      PagesAre(d, ps);
    }
  }

  lemma PagesAre(x: nat, ps: nat)
    requires ps > 0
    ensures PagesOver(x, ps) == x / ps + 1
  {
  }

  lemma CompareMultiples(n: nat, count: nat, d: nat, r: nat)
    requires r < d
    ensures n * d + r <= count * d <==> n < count || (n == count && r == 0)
    ensures n * d + r < count * d <==> n < count
  {
    if n < count {
      assert (n + 1) * d <= count * d;
    } else {
      assert count * d <= n * d;
      if n > count { assert (count + 1) * d <= n * d; }
    }
  }
}
