/** The headers of the heap: how they are linked, and what allocating and freeing write to them.  The
    owner of a block may fill it with anything, also where a header that died lies in it. */
module HeapHeaders {
  import opened HeapBlocks

  const MAGIC: int := 3233
  const NULL: nat := 0

  datatype AllocNode = AllocNode(inUse: bool, capacity: nat, prev: nat, next: nat, signature: int)

  /** Headers by address.  An address without an entry holds no header. */
  type Headers = map<nat, AllocNode>

  function PrevOf(bs: seq<Block>, k: nat): nat
    requires k < |bs|
  {
    if k > 0 then bs[k - 1].addr else NULL
  }

  function AddrOr(bs: seq<Block>, k: nat): nat {
    if k < |bs| then bs[k].addr else NULL
  }

  // ---------- links ----------

  /** Block k has its header, which leads to the next block. */
  ghost predicate NodeOk(hdr: Headers, bs: seq<Block>, k: nat)
    requires k < |bs|
  {
    && bs[k].addr in hdr
    && var h := hdr[bs[k].addr];
       h == AllocNode(bs[k].used, bs[k].cap, h.prev, AddrOr(bs, k + 1), MAGIC)
  }

  ghost predicate Linked(hdr: Headers, bs: seq<Block>) {
    forall k :: 0 <= k < |bs| ==> NodeOk(hdr, bs, k)
  }

  ghost predicate IsAddress(bs: seq<Block>, a: nat) {
    exists k :: 0 <= k < |bs| && bs[k].addr == a
  }

  /** No other header carries the signature. */
  ghost predicate Clean(hdr: Headers, bs: seq<Block>) {
    forall a :: a in hdr && hdr[a].signature == MAGIC ==> IsAddress(bs, a)
  }

  /** The link back of block k is right. */
  ghost predicate PrevOk(hdr: Headers, bs: seq<Block>, k: nat)
    requires k < |bs|
  {
    bs[k].addr in hdr && hdr[bs[k].addr].prev == PrevOf(bs, k)
  }

  /** The links back mirror the links forth. */
  ghost predicate Mirrored(hdr: Headers, bs: seq<Block>) {
    forall k :: 0 <= k < |bs| ==> PrevOk(hdr, bs, k)
  }

  /** Address a lies in the part of b that is handed out. */
  predicate Inside(b: Block, a: nat) {
    b.addr + HEADER <= a < End(b)
  }

  /** The link back of block k is right, or leads to some header that died in the block before it. */
  ghost predicate LinkNear(hdr: Headers, bs: seq<Block>, k: nat)
    requires k < |bs|
  {
    && bs[k].addr in hdr
    && var p := hdr[bs[k].addr].prev;
       if k == 0 then p == NULL else p == bs[k - 1].addr || Inside(bs[k - 1], p)
  }

  ghost predicate Near(hdr: Headers, bs: seq<Block>) {
    forall k :: 0 <= k < |bs| ==> LinkNear(hdr, bs, k)
  }

  /** A header that a merge left behind: it says that it is unused, and has lost its signature. */
  predicate Dead(hdr: Headers, a: nat) {
    a in hdr && !hdr[a].inUse && hdr[a].signature != MAGIC
  }

  /** Address a holds a dead header as the merges into the free block b left it. */
  predicate KeptIn(hdr: Headers, b: Block, a: nat) {
    Inside(b, a) && Dead(hdr, a) && (hdr[a].prev == b.addr || (Inside(b, hdr[a].prev) && hdr[a].prev < a))
  }

  ghost predicate KeptAt(hdr: Headers, bs: seq<Block>, k: nat, a: nat)
    requires k < |bs|
  {
    !bs[k].used && KeptIn(hdr, bs[k], a)
  }

  /** `kept` are dead headers that were in no used block since they died. */
  ghost predicate KeptOk(hdr: Headers, bs: seq<Block>, kept: set<nat>) {
    forall a :: a in kept ==> exists k :: 0 <= k < |bs| && KeptAt(hdr, bs, k, a)
  }

  /** The headers stand for the blocks.  Nothing is said of what lies in used blocks but that it does
      not carry the signature. */
  ghost predicate Right(hdr: Headers, bs: seq<Block>, base: nat, kept: set<nat>) {
    HEADER <= base && Tiled(bs, base) && Linked(hdr, bs) && Clean(hdr, bs) && Near(hdr, bs) && KeptOk(hdr, bs, kept)
  }

  /** The parts of the memory that no owner wrote are the same: the headers of the blocks, and those kept. */
  ghost predicate Like(hdr: Headers, g: Headers, bs: seq<Block>, kept: set<nat>) {
    && (forall k :: 0 <= k < |bs| ==> bs[k].addr in hdr && bs[k].addr in g && g[bs[k].addr] == hdr[bs[k].addr])
    && (forall a :: a in kept ==> a in hdr && a in g && g[a] == hdr[a])
    && Clean(g, bs)
  }

  /** From h to e nothing changed in a used block, other than block i. */
  ghost predicate Untouched(h: Headers, e: Headers, bs: seq<Block>, i: nat) {
    forall k, a :: 0 <= k < |bs| && k != i && bs[k].used && Inside(bs[k], a) ==>
      (a in e <==> a in h) && (a in h ==> e[a] == h[a])
  }

  ghost predicate InFree(bs: seq<Block>, a: nat) {
    exists k :: 0 <= k < |bs| && !bs[k].used && Inside(bs[k], a)
  }

  /** Those that lie in free blocks of bs. */
  ghost function Still(kept: set<nat>, bs: seq<Block>): set<nat> {
    set a | a in kept && InFree(bs, a)
  }

  // ---------- facts about one place ----------

  /** No block lies between two neighbours, so what lies there carries no signature. */
  lemma NothingBetween(bs: seq<Block>, base: nat, k: nat, a: nat)
    requires Tiled(bs, base) && k + 1 < |bs| && bs[k].addr < a < bs[k + 1].addr
    ensures !IsAddress(bs, a)
  {
    AddressesDiffer(bs, base);
  }

  /** What lies inside a block is no block, and inside no other. */
  lemma InsideOne(bs: seq<Block>, base: nat, k: nat, a: nat)
    requires Tiled(bs, base) && k < |bs| && Inside(bs[k], a)
    ensures !IsAddress(bs, a)
    ensures forall j :: 0 <= j < |bs| && Inside(bs[j], a) ==> j == k
  {
    AddressesDiffer(bs, base);
  }

  lemma RightIsTiled(hdr: Headers, bs: seq<Block>, base: nat, kept: set<nat>)
    requires Right(hdr, bs, base, kept)
    ensures Tiled(bs, base)
  {
  }

  lemma OneNode(hdr: Headers, bs: seq<Block>, base: nat, kept: set<nat>, k: nat)
    requires Right(hdr, bs, base, kept) && k < |bs|
    ensures NodeOk(hdr, bs, k) && LinkNear(hdr, bs, k)
  {
  }

  lemma OneKept(hdr: Headers, bs: seq<Block>, base: nat, kept: set<nat>, a: nat) returns (k: nat)
    requires Right(hdr, bs, base, kept) && a in kept
    ensures k < |bs| && KeptAt(hdr, bs, k, a)
  {
    k :| 0 <= k < |bs| && KeptAt(hdr, bs, k, a);
  }

  /** What no owner wrote decides whether the headers stand for the blocks. */
  lemma LikeIsRight(hdr: Headers, g: Headers, bs: seq<Block>, base: nat, kept: set<nat>)
    requires Right(hdr, bs, base, kept) && Like(hdr, g, bs, kept)
    ensures Right(g, bs, base, kept)
  {
    forall k | 0 <= k < |bs| ensures NodeOk(g, bs, k) && LinkNear(g, bs, k) {
      OneNode(hdr, bs, base, kept, k);
    }
    forall a | a in kept ensures exists k :: 0 <= k < |bs| && KeptAt(g, bs, k, a) {
      var k := OneKept(hdr, bs, base, kept, a);
      assert KeptAt(g, bs, k, a);
    }
  }

  // ---------- what an allocation writes ----------

  function PutFirst(hdr: Headers, base: nat, size: nat): Headers {
    hdr[base := AllocNode(true, size, NULL, NULL, MAGIC)]
  }

  function PutLast(hdr: Headers, last: nat, at: nat, size: nat): Headers
    requires last in hdr
  {
    var h := hdr[at := AllocNode(true, size, last, NULL, MAGIC)];
    h[last := h[last].(next := at)]
  }

  function PutUsed(hdr: Headers, at: nat): Headers
    requires at in hdr
  {
    hdr[at := hdr[at].(inUse := true)]
  }

  lemma FirstIsRight(hdr: Headers, base: nat, size: nat, kept: set<nat>)
    requires Right(hdr, [], base, kept)
    ensures var h, bs := PutFirst(hdr, base, size), [Block(base, size, true)];
            Right(h, bs, base, Still(kept, bs)) && Mirrored(h, bs)
  {
    var h, bs := PutFirst(hdr, base, size), [Block(base, size, true)];
    forall a | a in h && h[a].signature == MAGIC ensures IsAddress(bs, a) {
      assert bs[0].addr == base;
      assert a != base ==> IsAddress([], a);
    }
  }

  lemma ReuseIsRight(hdr: Headers, bs: seq<Block>, base: nat, i: nat, kept: set<nat>)
    requires Right(hdr, bs, base, kept) && i < |bs| && !bs[i].used
    ensures bs[i].addr in hdr
    ensures var h, r := PutUsed(hdr, bs[i].addr), bs[i := bs[i].(used := true)];
            && Right(h, r, base, Still(kept, r)) && (Mirrored(hdr, bs) ==> Mirrored(h, r))
            && Untouched(hdr, h, bs, |bs|)
  {
    hide Tiled, NodeOk, LinkNear, PrevOk, Still, Untouched, KeptOk;
    RightIsTiled(hdr, bs, base, kept);
    HeaderOf(hdr, bs, base, kept, i);
    UseKeepsTiled(bs, base, i);
    var h, r := PutUsed(hdr, bs[i].addr), bs[i := bs[i].(used := true)];
    forall k | 0 <= k < |r| ensures NodeOk(h, r, k) && LinkNear(h, r, k) && (PrevOk(hdr, bs, k) ==> PrevOk(h, r, k)) {
      OneNode(hdr, bs, base, kept, k);
      ReuseNode(hdr, bs, base, i, k);
    }
    CleanStill(hdr, bs, h, r);
    ReuseKeeps(hdr, bs, base, i, kept);
  }

  lemma HeaderOf(hdr: Headers, bs: seq<Block>, base: nat, kept: set<nat>, i: nat)
    requires Right(hdr, bs, base, kept) && i < |bs|
    ensures bs[i].addr in hdr && hdr[bs[i].addr].signature == MAGIC
  {
    OneNode(hdr, bs, base, kept, i);
  }

  lemma ReuseNode(hdr: Headers, bs: seq<Block>, base: nat, i: nat, k: nat)
    requires Tiled(bs, base) && i < |bs| && k < |bs| && bs[i].addr in hdr && NodeOk(hdr, bs, k) && LinkNear(hdr, bs, k)
    ensures var h, r := PutUsed(hdr, bs[i].addr), bs[i := bs[i].(used := true)];
            NodeOk(h, r, k) && LinkNear(h, r, k) && (PrevOk(hdr, bs, k) ==> PrevOk(h, r, k))
  {
    AddressesDiffer(bs, base);
  }

  lemma ReuseKeeps(hdr: Headers, bs: seq<Block>, base: nat, i: nat, kept: set<nat>)
    requires Right(hdr, bs, base, kept) && i < |bs| && !bs[i].used && bs[i].addr in hdr
    ensures var h, r := PutUsed(hdr, bs[i].addr), bs[i := bs[i].(used := true)];
            KeptOk(h, r, Still(kept, r)) && Untouched(hdr, h, bs, |bs|)
  {
    var h, r := PutUsed(hdr, bs[i].addr), bs[i := bs[i].(used := true)];
    RightIsTiled(hdr, bs, base, kept);
    forall a | a in Still(kept, r) ensures exists k :: 0 <= k < |r| && KeptAt(h, r, k, a) {
      var k := OneKept(hdr, bs, base, kept, a);
      InsideOne(bs, base, k, a);
      var j :| 0 <= j < |r| && !r[j].used && Inside(r[j], a);
      assert Inside(bs[j], a);
      assert a != bs[i].addr by { assert IsAddress(bs, bs[i].addr); }
      assert KeptAt(h, r, k, a);
    }
    forall k, a | 0 <= k < |bs| && bs[k].used && Inside(bs[k], a) ensures a != bs[i].addr {
      InsideOne(bs, base, k, a);
      assert IsAddress(bs, bs[i].addr);
    }
  }

  lemma UseKeepsTiled(bs: seq<Block>, base: nat, i: nat)
    requires Tiled(bs, base) && i < |bs|
    ensures Tiled(bs[i := bs[i].(used := true)], base)
  {
  }

  /** Signatures stay where they are, and so do the addresses. */
  lemma CleanStill(hdr: Headers, bs: seq<Block>, h: Headers, r: seq<Block>)
    requires Clean(hdr, bs) && |r| >= |bs| && forall k :: 0 <= k < |bs| ==> r[k].addr == bs[k].addr
    requires forall a :: a in h && h[a].signature == MAGIC ==> (a in hdr && hdr[a].signature == MAGIC) || IsAddress(r, a)
    ensures Clean(h, r)
  {
    forall a | a in h && h[a].signature == MAGIC ensures IsAddress(r, a) {
      if a in hdr && hdr[a].signature == MAGIC { SameAddress(bs, r, a); }
    }
  }

  lemma SameAddress(bs: seq<Block>, r: seq<Block>, a: nat)
    requires IsAddress(bs, a) && |r| >= |bs| && forall k :: 0 <= k < |bs| ==> r[k].addr == bs[k].addr
    ensures IsAddress(r, a)
  {
    var k :| 0 <= k < |bs| && bs[k].addr == a;
    assert r[k].addr == a;
  }

  lemma AppendIsRight(hdr: Headers, bs: seq<Block>, base: nat, size: nat, kept: set<nat>)
    requires Right(hdr, bs, base, kept) && bs != []
    ensures var last, at := bs[|bs| - 1], Top(bs, base);
            && last.addr in hdr && hdr[last.addr].capacity == last.cap && last.addr < at
    ensures var h, r := PutLast(hdr, bs[|bs| - 1].addr, Top(bs, base), size), bs + [Block(Top(bs, base), size, true)];
            && Right(h, r, base, Still(kept, r)) && (Mirrored(hdr, bs) ==> Mirrored(h, r))
            && Untouched(hdr, h, bs, |bs|)
  {
    var n, at := |bs|, Top(bs, base);
    OneNode(hdr, bs, base, kept, n - 1);
    AppendKeepsTiled(bs, base, size);
    AddressesDiffer(bs, base);
    var h, r := PutLast(hdr, bs[n - 1].addr, at, size), bs + [Block(at, size, true)];
    forall k | 0 <= k < n + 1
      ensures NodeOk(h, r, k) && LinkNear(h, r, k) && (k == n || PrevOk(hdr, bs, k) ==> PrevOk(h, r, k))
    {
      if k < n {
        OneNode(hdr, bs, base, kept, k);
        AppendKeeps(hdr, bs, at, size, k);
      }
    }
    hide Tiled;
    assert r[n].addr == at;
    CleanStill(hdr, bs, h, r);
    AppendKeepsOthers(hdr, bs, base, size, kept);
  }

  lemma AppendKeepsTiled(bs: seq<Block>, base: nat, size: nat)
    requires Tiled(bs, base)
    ensures Tiled(bs + [Block(Top(bs, base), size, true)], base)
  {
  }

  lemma AppendKeeps(hdr: Headers, bs: seq<Block>, at: nat, size: nat, k: nat)
    requires k < |bs| && NodeOk(hdr, bs, k) && LinkNear(hdr, bs, k) && NodeOk(hdr, bs, |bs| - 1)
    requires bs[k].addr < at && bs[|bs| - 1].addr < at && (k < |bs| - 1 ==> bs[k].addr < bs[|bs| - 1].addr)
    ensures var h, r := PutLast(hdr, bs[|bs| - 1].addr, at, size), bs + [Block(at, size, true)];
            NodeOk(h, r, k) && LinkNear(h, r, k) && (PrevOk(hdr, bs, k) ==> PrevOk(h, r, k))
  {
  }

  /** Nothing inside a block is a header that an allocation writes. */
  lemma InsideIsOld(bs: seq<Block>, base: nat, k: nat, a: nat)
    requires Tiled(bs, base) && k < |bs| && Inside(bs[k], a)
    ensures a < Top(bs, base) && forall j :: 0 <= j < |bs| ==> bs[j].addr != a
  {
    AddressesDiffer(bs, base);
  }

  lemma AppendKeepsOthers(hdr: Headers, bs: seq<Block>, base: nat, size: nat, kept: set<nat>)
    requires Right(hdr, bs, base, kept) && bs != [] && bs[|bs| - 1].addr in hdr
    ensures var h, r := PutLast(hdr, bs[|bs| - 1].addr, Top(bs, base), size), bs + [Block(Top(bs, base), size, true)];
            KeptOk(h, r, Still(kept, r)) && Untouched(hdr, h, bs, |bs|)
  {
    var h, r := PutLast(hdr, bs[|bs| - 1].addr, Top(bs, base), size), bs + [Block(Top(bs, base), size, true)];
    RightIsTiled(hdr, bs, base, kept);
    forall a | a in Still(kept, r) ensures exists k :: 0 <= k < |r| && KeptAt(h, r, k, a) {
      var k := OneKept(hdr, bs, base, kept, a);
      InsideIsOld(bs, base, k, a);
      assert KeptAt(h, r, k, a);
    }
    forall k, a | 0 <= k < |bs| && bs[k].used && Inside(bs[k], a)
      ensures (a in h <==> a in hdr) && (a in hdr ==> h[a] == hdr[a])
    {
      InsideIsOld(bs, base, k, a);
    }
  }

  /** The headers after a successful allocation. */
  function AllocHeaders(hdr: Headers, bs: seq<Block>, base: nat, size: nat): Headers
    requires forall b :: b in bs ==> b.addr in hdr
  {
    var i := FirstFit(bs, size, 0);
    if bs == [] then PutFirst(hdr, base, size)
    else if i < |bs| then PutUsed(hdr, bs[i].addr)
    else PutLast(hdr, bs[|bs| - 1].addr, Top(bs, base), size)
  }

  lemma HaveHeaders(hdr: Headers, bs: seq<Block>, base: nat, kept: set<nat>)
    requires Right(hdr, bs, base, kept)
    ensures forall b :: b in bs ==> b.addr in hdr
  {
    forall b | b in bs ensures b.addr in hdr {
      var k :| 0 <= k < |bs| && bs[k] == b;
      OneNode(hdr, bs, base, kept, k);
    }
  }

  /** An allocation keeps the headers right, writes in no used block, and keeps mirrored links mirrored. */
  lemma AllocIsRight(hdr: Headers, bs: seq<Block>, base: nat, size: nat, kept: set<nat>)
    requires Right(hdr, bs, base, kept)
    ensures forall b :: b in bs ==> b.addr in hdr
    ensures var h, r := AllocHeaders(hdr, bs, base, size), Allocated(bs, base, size);
            && Right(h, r, base, Still(kept, r)) && (Mirrored(hdr, bs) ==> Mirrored(h, r))
            && Untouched(hdr, h, bs, |bs|)
  {
    HaveHeaders(hdr, bs, base, kept);
    hide Right, Mirrored, FirstFit, Still;
    if bs == [] {
      FirstIsRight(hdr, base, size, kept);
      assert Allocated(bs, base, size) == [Block(base, size, true)];
    } else if FirstFit(bs, size, 0) < |bs| {
      ReuseIsRight(hdr, bs, base, FirstFit(bs, size, 0), kept);
    } else {
      AppendIsRight(hdr, bs, base, size, kept);
    }
  }

  /** The header at the base tells whether there are blocks. */
  lemma HeadTells(hdr: Headers, bs: seq<Block>, base: nat, kept: set<nat>)
    requires Right(hdr, bs, base, kept)
    ensures (base in hdr && hdr[base].signature == MAGIC) <==> bs != []
  {
    if bs != [] { assert NodeOk(hdr, bs, 0); }
  }

  /** The header at an address tells whether a block is there and in use. */
  lemma NodeAt(hdr: Headers, bs: seq<Block>, base: nat, a: nat, kept: set<nat>)
    requires Right(hdr, bs, base, kept)
    ensures var i := IndexOf(bs, a, 0);
            && ((a in hdr && hdr[a].signature == MAGIC) <==> i < |bs|)
            && (i < |bs| ==> hdr[a].inUse == bs[i].used)
  {
    var i := IndexOf(bs, a, 0);
    if i < |bs| { assert NodeOk(hdr, bs, i); }
  }

  // ---------- what a free writes ----------

  /** The block at c is no longer in use. */
  function Release(hdr: Headers, c: nat): Headers
    requires c in hdr
  {
    hdr[c := hdr[c].(inUse := false)]
  }

  /** The node at c, which is free, goes into the free node that it points back to. */
  function MergeBack(hdr: Headers, c: nat): Headers
    requires c in hdr && hdr[c].prev in hdr && hdr[c].prev != c
  {
    var p, n := hdr[c].prev, hdr[c];
    hdr[c := n.(signature := 0)][p := hdr[p].(next := n.next, capacity := hdr[p].capacity + HEADER + n.capacity)]
  }

  /** The free node after c goes into c. */
  function MergeForth(hdr: Headers, c: nat): Headers
    requires c in hdr && hdr[c].next in hdr && hdr[c].next != c
  {
    var n := hdr[c].next;
    hdr[n := hdr[n].(signature := 0)]
       [c := hdr[c].(capacity := hdr[n].capacity + HEADER + hdr[c].capacity, next := hdr[n].next)]
  }

  /** The last node goes away. */
  function Trim(hdr: Headers, c: nat): Headers
    requires c in hdr && (hdr[c].prev != NULL ==> hdr[c].prev in hdr && hdr[c].prev != c)
  {
    var p := hdr[c].prev;
    (if p != NULL then hdr[p := hdr[p].(next := NULL)] else hdr)[c := hdr[c].(signature := 0, capacity := 0, prev := NULL)]
  }

  /** There is a node before c, and it says that it is free.  An address without an entry says nothing,
      and a link that leads up can only be an owner's bytes: there the loop back ends. */
  predicate FreeBefore(hdr: Headers, c: nat) {
    c in hdr && var p := hdr[c].prev; p != NULL && p in hdr && p < c && !hdr[p].inUse
  }

  /** The loop back of `mydeallocate`: the headers after it, and the node it ends at. */
  function LoopBack(hdr: Headers, c: nat): (r: (Headers, nat))
    decreases c
  {
    if FreeBefore(hdr, c) then LoopBack(MergeBack(hdr, c), hdr[c].prev) else (hdr, c)
  }

  /** There is a node after c and below top, and it says that it is free. */
  predicate FreeAfter(hdr: Headers, c: nat, top: nat) {
    && c in hdr
    && var n := hdr[c].next;
       && n != NULL && n in hdr && c < n < top && !hdr[n].inUse
       && (hdr[n].next == NULL || n < hdr[n].next)
  }

  /** The loop forth. */
  function LoopForth(hdr: Headers, c: nat, top: nat): (r: Headers)
    decreases if c in hdr && hdr[c].next != NULL && hdr[c].next < top then top - hdr[c].next else 0
  {
    if FreeAfter(hdr, c, top) then LoopForth(MergeForth(hdr, c), c, top) else hdr
  }

  /** Take the node out if nothing follows it; otherwise, if so declared, repair the link back of
      what follows. */
  function Finish(hdr: Headers, c: nat, relink: bool): Headers {
    if c !in hdr then hdr
    else if hdr[c].next == NULL then
      if hdr[c].prev != NULL && (hdr[c].prev !in hdr || hdr[c].prev == c) then hdr else Trim(hdr, c)
    else if relink && hdr[c].next in hdr then hdr[hdr[c].next := hdr[hdr[c].next].(prev := c)]
    else hdr
  }

  /** The headers after the used block at c was freed; no header lies from top on. */
  function FreeHeaders(hdr: Headers, c: nat, top: nat, relink: bool): Headers
    requires c in hdr
  {
    var (h, d) := LoopBack(Release(hdr, c), c);
    Finish(LoopForth(h, d, top), d, relink)
  }
}
