/** Whole runs on the headers: allocations, frees, and owners who write in their blocks. */
module HeapRuns {
  import opened HeapBlocks
  import opened HeapHeaders
  import opened HeapFrees

  /** A call of the heap, or the owner of a block changes what lies at an address in it; None: to bytes
      that are no header. */
  datatype Act = Call(op: Op) | Write(at: nat, node: Bytes)

  datatype Bytes = None | Node(node: AllocNode)

  /** The heap: its headers, the blocks that they should stand for, and the dead headers that are kept. */
  datatype Heap = Heap(hdr: Headers, bs: seq<Block>, kept: set<nat>)

  ghost predicate RightHeap(s: Heap, base: nat) {
    Right(s.hdr, s.bs, base, s.kept)
  }

  /** An owner writes in its own block, and does not forge the signature. */
  ghost predicate MayWrite(bs: seq<Block>, a: nat, n: Bytes) {
    (exists k :: 0 <= k < |bs| && bs[k].used && Inside(bs[k], a)) && (n.Node? ==> n.node.signature != MAGIC)
  }

  function Written(hdr: Headers, a: nat, n: Bytes): Headers {
    match n
    case None => hdr - {a}
    case Node(m) => hdr[a := m]
  }

  ghost predicate Legal(s: Heap, act: Act) {
    act.Write? ==> MayWrite(s.bs, act.at, act.node)
  }

  ghost function Next(s: Heap, base: nat, act: Act, relink: bool): Heap
    requires RightHeap(s, base)
  {
    RightHas(s, base);
    match act
    case Write(a, n) => s.(hdr := Written(s.hdr, a, n))
    case Call(Alloc(n)) =>
      var bs := Allocated(s.bs, base, n);
      Heap(AllocHeaders(s.hdr, s.bs, base, n), bs, Still(s.kept, bs))
    case Call(Free(a)) =>
      Heap(FreedHeaders(s.hdr, a, Top(s.bs, base), relink), Freed(s.bs, base, a), FreedKept(s.bs, base, a, s.kept))
  }

  lemma RightHas(s: Heap, base: nat)
    requires RightHeap(s, base)
    ensures Tiled(s.bs, base) && forall b :: b in s.bs ==> b.addr in s.hdr
  {
    HaveHeaders(s.hdr, s.bs, base, s.kept);
  }

  ghost predicate SoundAct(s: Heap, act: Act) {
    act.Call? && act.op.Free? ==> SoundFree(s.hdr, s.bs, act.op.addr, s.kept)
  }

  /** What a call may write in used blocks: in that which it frees. */
  ghost predicate Spares(s: Heap, h: Headers, act: Act) {
    act.Call? ==> Untouched(s.hdr, h, s.bs, if act.op.Free? then IndexOf(s.bs, act.op.addr, 0) else |s.bs|)
  }

  /** What an owner writes is no part of what the headers stand for. */
  lemma WriteIsLike(s: Heap, base: nat, a: nat, n: Bytes)
    requires RightHeap(s, base) && MayWrite(s.bs, a, n)
    ensures Like(s.hdr, Written(s.hdr, a, n), s.bs, s.kept)
  {
    var g := Written(s.hdr, a, n);
    var j :| 0 <= j < |s.bs| && s.bs[j].used && Inside(s.bs[j], a);
    InsideOne(s.bs, base, j, a);
    forall k | 0 <= k < |s.bs| ensures s.bs[k].addr in s.hdr && s.bs[k].addr != a {
      OneNode(s.hdr, s.bs, base, s.kept, k);
      assert IsAddress(s.bs, s.bs[k].addr);
    }
    forall x | x in s.kept ensures x in s.hdr && x != a {
      var k := OneKept(s.hdr, s.bs, base, s.kept, x);
    }
  }

  /** A sound act keeps the heap right; a call writes in no used block but the one it frees. */
  lemma ActIsRight(s: Heap, base: nat, act: Act, relink: bool)
    requires RightHeap(s, base) && Legal(s, act) && SoundAct(s, act)
    ensures var n := Next(s, base, act, relink);
            RightHeap(n, base) && Spares(s, n.hdr, act) && (relink && Mirrored(s.hdr, s.bs) ==> Mirrored(n.hdr, n.bs))
  {
    hide Right, Mirrored, SoundFree, AllocHeaders, FreedHeaders, Freed, Allocated, Tiled, Untouched, Still, FreedKept, Like, Written;
    RightHas(s, base);
    match act
    case Write(a, n) =>
      WriteIsLike(s, base, a, n);
      LikeIsRight(s.hdr, Written(s.hdr, a, n), s.bs, base, s.kept);
      LikeIsMirrored(s.hdr, Written(s.hdr, a, n), s.bs, s.kept);
    case Call(Alloc(n)) => AllocIsRight(s.hdr, s.bs, base, n, s.kept);
    case Call(Free(a)) => FreedIsRight(s.hdr, s.bs, base, a, s.kept, relink);
  }

  lemma LikeIsMirrored(hdr: Headers, g: Headers, bs: seq<Block>, kept: set<nat>)
    requires Like(hdr, g, bs, kept)
    ensures Mirrored(hdr, bs) ==> Mirrored(g, bs)
  {
    forall k | 0 <= k < |bs| && Mirrored(hdr, bs) ensures PrevOk(g, bs, k) {
      assert PrevOk(hdr, bs, k);
    }
  }

  // ---------- which runs are right ----------

  /** Whatever the owners had written, the act would leave the heap right, and spare their blocks. */
  ghost predicate Safe(s: Heap, base: nat, act: Act, relink: bool)
    requires RightHeap(s, base)
  {
    forall g :: Like(s.hdr, g, s.bs, s.kept) ==>
      && RightHeap(s.(hdr := g), base)
      && var n := Next(s.(hdr := g), base, act, relink); RightHeap(n, base) && Spares(s.(hdr := g), n.hdr, act)
  }

  lemma ActIsSafeIff(s: Heap, base: nat, act: Act, relink: bool)
    requires RightHeap(s, base) && Legal(s, act)
    ensures Safe(s, base, act, relink) <==> SoundAct(s, act)
  {
    hide Right, Like, Untouched, FreedHeaders, Freed, FreedKept, SoundFree, AllocHeaders, Allocated, Still, Tiled, Written;
    RightHas(s, base);
    if SoundAct(s, act) {
      forall g | Like(s.hdr, g, s.bs, s.kept)
        ensures RightHeap(s.(hdr := g), base)
        ensures var n := Next(s.(hdr := g), base, act, relink); RightHeap(n, base) && Spares(s.(hdr := g), n.hdr, act)
      {
        LikeIsRight(s.hdr, g, s.bs, base, s.kept);
        LikeSounds(s, g, act);
        ActIsRight(s.(hdr := g), base, act, relink);
      }
    } else {
      FreedIsRightIff(s.hdr, s.bs, base, act.op.addr, s.kept, relink);
      var g :| Like(s.hdr, g, s.bs, s.kept) && !FreeSucceeds(g, s.bs, base, act.op.addr, s.kept, relink);
      LikeIsRight(s.hdr, g, s.bs, base, s.kept);
      var n := Next(s.(hdr := g), base, act, relink);
      assert !(RightHeap(n, base) && Spares(s.(hdr := g), n.hdr, act));
    }
  }

  lemma LikeSounds(s: Heap, g: Headers, act: Act)
    requires Like(s.hdr, g, s.bs, s.kept) && SoundAct(s, act)
    ensures SoundAct(s.(hdr := g), act)
  {
    hide SoundAt, Like;
    if act.Call? && act.op.Free? {
      var i := IndexOf(s.bs, act.op.addr, 0);
      if i < |s.bs| { LikeIsSound(s.hdr, g, s.bs, s.kept, i); }
    }
  }

  /** Every owner writes in its own block, as far as the run goes well. */
  ghost predicate LegalRun(s: Heap, base: nat, acts: seq<Act>, relink: bool)
    requires RightHeap(s, base)
    decreases |acts|
  {
    acts == [] || (
      && Legal(s, acts[0])
      && (SoundAct(s, acts[0]) ==>
            (ActIsRight(s, base, acts[0], relink); LegalRun(Next(s, base, acts[0], relink), base, acts[1..], relink))))
  }

  /** No act of the run depends on what the owners wrote: each is safe when it comes. */
  ghost predicate SafeRun(s: Heap, base: nat, acts: seq<Act>, relink: bool)
    decreases |acts|
  {
    && RightHeap(s, base)
    && (acts == [] || (
          && Safe(s, base, acts[0], relink)
          && SafeRun(Next(s, base, acts[0], relink), base, acts[1..], relink)))
  }

  /** Every free of the run is sound when it comes. */
  ghost predicate SoundRun(s: Heap, base: nat, acts: seq<Act>, relink: bool)
    requires RightHeap(s, base)
    decreases |acts|
  {
    acts == [] || (
      && Legal(s, acts[0]) && SoundAct(s, acts[0])
      && (ActIsRight(s, base, acts[0], relink); SoundRun(Next(s, base, acts[0], relink), base, acts[1..], relink)))
  }

  /** A run of allocations, frees and owners' writes, with or without the repair, is right throughout
      whatever the owners wrote, and spares their blocks, if and only if each of its frees is sound. */
  lemma {:induction false} RunIsRightIff(s: Heap, base: nat, acts: seq<Act>, relink: bool)
    requires RightHeap(s, base) && LegalRun(s, base, acts, relink)
    ensures SafeRun(s, base, acts, relink) <==> SoundRun(s, base, acts, relink)
    decreases |acts|
  {
    hide RightHeap, SoundAct, Legal, Next, Safe;
    if acts != [] {
      ActIsSafeIff(s, base, acts[0], relink);
      if SoundAct(s, acts[0]) {
        ActIsRight(s, base, acts[0], relink);
        RunIsRightIff(Next(s, base, acts[0], relink), base, acts[1..], relink);
      }
    }
  }

  /** With the repair every run is sound. */
  lemma {:induction false} RepairedRunIsSound(s: Heap, base: nat, acts: seq<Act>)
    requires RightHeap(s, base) && LegalRun(s, base, acts, true) && Mirrored(s.hdr, s.bs)
    ensures SoundRun(s, base, acts, true)
    decreases |acts|
  {
    hide RightHeap, Legal, Next, Mirrored, SoundFree;
    if acts != [] {
      if acts[0].Call? && acts[0].op.Free? { MirroredIsSound(s.hdr, s.bs, acts[0].op.addr, s.kept); }
      ActIsRight(s, base, acts[0], true);
      RepairedRunIsSound(Next(s, base, acts[0], true), base, acts[1..]);
    }
  }

  // ---------- what a sound run comes to ----------

  ghost function RunOf(s: Heap, base: nat, acts: seq<Act>, relink: bool): (r: Heap)
    requires RightHeap(s, base) && SoundRun(s, base, acts, relink)
    ensures RightHeap(r, base)
    decreases |acts|
  {
    if acts == [] then s else
      ActIsRight(s, base, acts[0], relink);
      RunOf(Next(s, base, acts[0], relink), base, acts[1..], relink)
  }

  function Calls(acts: seq<Act>): seq<Op>
    decreases |acts|
  {
    if acts == [] then [] else (if acts[0].Call? then [acts[0].op] else []) + Calls(acts[1..])
  }

  /** After a sound run, also without the repair and whatever the owners wrote in between, the headers
      stand for the blocks that the calls give on values, and the live blocks are those handed out and
      not yet freed. */
  lemma {:induction false} SoundRunRefines(s: Heap, base: nat, acts: seq<Act>, relink: bool)
    requires RightHeap(s, base) && SoundRun(s, base, acts, relink)
    ensures Tiled(s.bs, base) && RunOf(s, base, acts, relink).bs == Run(s.bs, base, Calls(acts))
    ensures Normal(s.bs) ==>
              var bs := Run(s.bs, base, Calls(acts));
              Normal(bs) && Live(bs, base) == SimpleRun(Live(s.bs, base), s.bs, base, Calls(acts))
    decreases |acts|
  {
    hide RightHeap, SoundAct, Legal, Tiled, Normal, Live, SimpleRun;
    RightHas(s, base);
    if Normal(s.bs) { RunRefines(s.bs, base, Calls(acts)); }
    RunGives(s, base, acts, relink);
  }

  lemma {:induction false} RunGives(s: Heap, base: nat, acts: seq<Act>, relink: bool)
    requires RightHeap(s, base) && SoundRun(s, base, acts, relink)
    ensures Tiled(s.bs, base) && RunOf(s, base, acts, relink).bs == Run(s.bs, base, Calls(acts))
    decreases |acts|
  {
    hide RightHeap, SoundAct, Legal, Next, Tiled, Allocated, Freed;
    RightHas(s, base);
    if acts != [] {
      ActIsRight(s, base, acts[0], relink);
      RunGives(Next(s, base, acts[0], relink), base, acts[1..], relink);
      NextBlocks(s, base, acts[0], relink);
      if acts[0].Call? {
        assert Calls(acts)[0] == acts[0].op && Calls(acts)[1..] == Calls(acts[1..]);
      } else {
        assert Calls(acts) == Calls(acts[1..]);
      }
    }
  }

  lemma NextBlocks(s: Heap, base: nat, act: Act, relink: bool)
    requires RightHeap(s, base)
    ensures Tiled(s.bs, base)
    ensures Next(s, base, act, relink).bs == match act
                                             case Write(_, _) => s.bs
                                             case Call(Alloc(n)) => Allocated(s.bs, base, n)
                                             case Call(Free(a)) => Freed(s.bs, base, a)
  {
    hide Right, Tiled, Allocated, Freed, AllocHeaders, FreedHeaders, Still, FreedKept, Written;
    RightHas(s, base);
  }

  /** Address a lies in the used block b of the heap. */
  predicate LiesIn(s: Heap, b: Block, a: nat) {
    b in s.bs && b.used && Inside(b, a)
  }

  ghost predicate SameBytes(h: Headers, e: Headers, a: nat) {
    (a in e <==> a in h) && (a in h ==> e[a] == h[a])
  }

  /** The run neither frees the block b nor has its owner write at a. */
  ghost predicate LeavesAlone(acts: seq<Act>, b: Block, a: nat) {
    forall act :: act in acts ==> act != Call(Free(b.addr)) && !(act.Write? && act.at == a)
  }

  lemma ActLeavesAlone(s: Heap, base: nat, act: Act, relink: bool, b: Block, a: nat)
    requires RightHeap(s, base) && Legal(s, act) && SoundAct(s, act) && LiesIn(s, b, a)
    requires act != Call(Free(b.addr)) && !(act.Write? && act.at == a)
    ensures var n := Next(s, base, act, relink); LiesIn(n, b, a) && SameBytes(s.hdr, n.hdr, a)
  {
    hide RightHeap, Tiled, SoundFree, Next;
    RightHas(s, base);
    ActIsRight(s, base, act, relink);
    BlockStays(s, base, act, relink, b);
    var k :| 0 <= k < |s.bs| && s.bs[k] == b;
    if act.Write? {
      WriteOnlyThere(s, base, act, relink, a);
    } else {
      assert act.op.Free? ==> k != IndexOf(s.bs, act.op.addr, 0);
    }
  }

  lemma WriteOnlyThere(s: Heap, base: nat, act: Act, relink: bool, a: nat)
    requires RightHeap(s, base) && act.Write? && act.at != a
    ensures SameBytes(s.hdr, Next(s, base, act, relink).hdr, a)
  {
    hide RightHeap;
  }

  lemma BlockStays(s: Heap, base: nat, act: Act, relink: bool, b: Block)
    requires RightHeap(s, base) && b in s.bs && b.used && act != Call(Free(b.addr))
    ensures b in Next(s, base, act, relink).bs
  {
    hide Next, Tiled, Right, Allocated, FreeAt;
    RightHas(s, base);
    NextBlocks(s, base, act, relink);
    match act
    case Write(x, n) =>
    case Call(Alloc(n)) => AllocShape(s.bs, base, n);
    case Call(Free(x)) =>
      var i := IndexOf(s.bs, x, 0);
      if i < |s.bs| && s.bs[i].used { FreeBlocks(s.bs, base, i); }
  }

  /** What an owner wrote in its block stays there over any sound run of all others, until it writes
      there again or frees the block. */
  lemma {:induction false} BytesStay(s: Heap, base: nat, acts: seq<Act>, relink: bool, b: Block, a: nat)
    requires RightHeap(s, base) && SoundRun(s, base, acts, relink) && LiesIn(s, b, a) && LeavesAlone(acts, b, a)
    ensures var r := RunOf(s, base, acts, relink); LiesIn(r, b, a) && SameBytes(s.hdr, r.hdr, a)
    decreases |acts|
  {
    hide RightHeap, SoundAct, Legal, Next, LiesIn;
    if acts != [] {
      assert acts[0] in acts && forall act :: act in acts[1..] ==> act in acts;
      ActIsRight(s, base, acts[0], relink);
      ActLeavesAlone(s, base, acts[0], relink, b, a);
      BytesStay(Next(s, base, acts[0], relink), base, acts[1..], relink, b, a);
    }
  }

  // ---------- why the links back matter ----------

  /** The headers of four used blocks of w, x, y and z bytes from base on. */
  function FourBlocks(base: nat, w: nat, x: nat, y: nat, z: nat): Headers {
    var b := base + HEADER + w;
    var c := b + HEADER + x;
    var d := c + HEADER + y;
    map[base := AllocNode(true, w, NULL, b, MAGIC),
        b := AllocNode(true, x, base, c, MAGIC),
        c := AllocNode(true, y, b, d, MAGIC),
        d := AllocNode(true, z, c, NULL, MAGIC)]
  }

  function FourUsed(base: nat, w: nat, x: nat, y: nat, z: nat): seq<Block> {
    var b := base + HEADER + w;
    var c := b + HEADER + x;
    [Block(base, w, true), Block(b, x, true), Block(c, y, true), Block(c + HEADER + y, z, true)]
  }

  lemma FourBlocksAreRight(base: nat, w: nat, x: nat, y: nat, z: nat)
    requires HEADER <= base
    ensures Right(FourBlocks(base, w, x, y, z), FourUsed(base, w, x, y, z), base, {})
    ensures Mirrored(FourBlocks(base, w, x, y, z), FourUsed(base, w, x, y, z))
  {
    var h, bs := FourBlocks(base, w, x, y, z), FourUsed(base, w, x, y, z);
    hide NodeOk, PrevOk, LinkNear;
    forall k | 0 <= k < 4 ensures NodeOk(h, bs, k) && PrevOk(h, bs, k) && LinkNear(h, bs, k) {
      FourthsAreRight(base, w, x, y, z, k);
    }
    forall a | a in h ensures IsAddress(bs, a) {
      assert a == bs[0].addr || a == bs[1].addr || a == bs[2].addr || a == bs[3].addr;
    }
  }

  lemma FourthsAreRight(base: nat, w: nat, x: nat, y: nat, z: nat, k: nat)
    requires HEADER <= base && k < 4
    ensures var h, bs := FourBlocks(base, w, x, y, z), FourUsed(base, w, x, y, z);
            NodeOk(h, bs, k) && PrevOk(h, bs, k) && LinkNear(h, bs, k)
  {
  }

  /** Without the repair: free the first, the second, then the third of four blocks.  The link back
      of the third still leads to the second, which is dead but looks free, so the third is merged
      into it, and it into the first once more.  The first block then counts the second twice and
      reaches into the fourth, which is in use. */
  lemma StaleLinkOvercounts(base: nat, w: nat, x: nat, y: nat, z: nat)
    requires base > 0
    ensures var b := base + HEADER + w;
            var c := b + HEADER + x;
            var d := c + HEADER + y;
            var h0 := FourBlocks(base, w, x, y, z);
            // free the first: the second is in use, so nothing merges
            && h0[base].prev == NULL && h0[h0[base].next].inUse
            && var h1 := Release(Release(h0, base), b);
            // free the second: it goes into the first, the third is in use
            && h1[b].prev == base && !h1[base].inUse
            && var h2 := MergeBack(h1, b);
            && h2[base].prev == NULL && h2[base].next == c && h2[c].inUse && h2[b].signature != MAGIC
            // free the third: two rounds back, then the fourth is in use
            && var h3 := Release(h2, c);
            && h3[c].signature == MAGIC && h3[c].prev == b && !h3[b].inUse
            && var h4 := MergeBack(h3, c);
            && h4[b].prev == base && !h4[base].inUse
            && var h5 := MergeBack(h4, b);
            && h5[base].prev == NULL && h5[base].next == d && h5[d].inUse
            // the first block should end where the fourth begins
            && base + HEADER + h5[base].capacity == d + HEADER + x
  {
  }

  function ThreeFrees(hdr: Headers, a: nat, b: nat, c: nat, top: nat): Headers {
    FreedHeaders(FreedHeaders(FreedHeaders(hdr, a, top, false), b, top, false), c, top, false)
  }

  /** The same by the function for a free: what the three frees leave overcounts by x + HEADER. */
  lemma ThreeFreesOvercount(base: nat, w: nat, x: nat, y: nat, z: nat) returns (h: Headers)
    requires HEADER <= base
    ensures var b := base + HEADER + w;
            var c := b + HEADER + x;
            h == ThreeFrees(FourBlocks(base, w, x, y, z), base, b, c, c + HEADER + y + HEADER + z)
    ensures var d := base + HEADER + w + HEADER + x + HEADER + y;
            && base in h && h[base].next == d && d in h && h[d].inUse
            && base + HEADER + h[base].capacity == d + HEADER + x
  {
    var b := base + HEADER + w;
    var c := b + HEADER + x;
    var d := c + HEADER + y;
    var h0 := FourBlocks(base, w, x, y, z);
    var h1 := Release(h0, base);
    var r := Release(h1, b);
    var h2 := MergeBack(r, b);
    hide LoopBack, LoopForth;
    FreesAlone(h0, base, d + HEADER + z);
    FreesInto(h1, b, base, d + HEADER + z);
    h := MergeBack(MergeBack(Release(h2, c), c), b);
    FreesThrough(h2, c, b, base, d + HEADER + z);
  }

  /** A free that finds no free node on either side. */
  lemma FreesAlone(hdr: Headers, c: nat, top: nat)
    requires IsUsedHeader(hdr, c) && hdr[c].next in hdr && hdr[hdr[c].next].inUse && hdr[c].next != NULL && hdr[c].next != c
    requires hdr[c].prev == NULL
    ensures FreedHeaders(hdr, c, top, false) == Release(hdr, c)
  {
    var r := Release(hdr, c);
    assert !FreeBefore(r, c) && !FreeAfter(r, c, top);
  }

  /** A free that merges once back, and no more. */
  lemma FreesInto(hdr: Headers, c: nat, p: nat, top: nat)
    requires IsUsedHeader(hdr, c) && hdr[c].prev == p && p in hdr && NULL < p < c && !hdr[p].inUse && hdr[p].prev == NULL
    requires hdr[c].next in hdr && hdr[hdr[c].next].inUse && hdr[c].next != NULL && hdr[c].next > c
    ensures FreedHeaders(hdr, c, top, false) == MergeBack(Release(hdr, c), c)
  {
    var r := Release(hdr, c);
    var h := MergeBack(r, c);
    assert !FreeBefore(h, p) && !FreeAfter(h, p, top);
    assert LoopBack(r, c) == LoopBack(h, p) == (h, p);
  }

  /** A free that merges twice back, and no more. */
  lemma FreesThrough(hdr: Headers, c: nat, d: nat, p: nat, top: nat)
    requires IsUsedHeader(hdr, c) && hdr[c].prev == d && d in hdr && NULL < p < d < c && !hdr[d].inUse
    requires hdr[d].prev == p && p in hdr && !hdr[p].inUse && hdr[p].prev == NULL
    requires hdr[c].next in hdr && hdr[hdr[c].next].inUse && hdr[c].next != NULL && hdr[c].next > c
    ensures FreedHeaders(hdr, c, top, false) == MergeBack(MergeBack(Release(hdr, c), c), d)
  {
    var r := Release(hdr, c);
    var h := MergeBack(r, c);
    var e := MergeBack(h, d);
    assert !FreeBefore(e, p) && !FreeAfter(e, p, top);
    assert LoopBack(r, c) == LoopBack(h, d) == LoopBack(e, p) == (e, p);
  }

  // ---------- a dead header in a block that is handed out again ----------

  /** The headers of three used blocks of x, y and z bytes from base on. */
  function ThreeBlocks(base: nat, x: nat, y: nat, z: nat): Headers {
    var b := base + HEADER + x;
    var c := b + HEADER + y;
    map[base := AllocNode(true, x, NULL, b, MAGIC),
        b := AllocNode(true, y, base, c, MAGIC),
        c := AllocNode(true, z, b, NULL, MAGIC)]
  }

  /** Those after the first and the second block were freed, and their space was handed out again. */
  lemma HandedOutAgain(base: nat, x: nat, y: nat, z: nat) returns (h: Headers)
    requires HEADER <= base
    ensures var b := base + HEADER + x;
            var c := b + HEADER + y;
            var top := c + HEADER + z;
            var h2 := FreedHeaders(FreedHeaders(ThreeBlocks(base, x, y, z), base, top, false), b, top, false);
            var bs := [Block(base, x + HEADER + y, false), Block(c, z, true)];
            (forall k :: k in bs ==> k.addr in h2) && h == AllocHeaders(h2, bs, base, x + HEADER + y)
    ensures var b := base + HEADER + x;
            var c := b + HEADER + y;
            h == map[base := AllocNode(true, x + HEADER + y, NULL, c, MAGIC),
                     b := AllocNode(false, y, base, c, 0),
                     c := AllocNode(true, z, b, NULL, MAGIC)]
  {
    var b := base + HEADER + x;
    var c := b + HEADER + y;
    var top := c + HEADER + z;
    var h0 := ThreeBlocks(base, x, y, z);
    var h1 := Release(h0, base);
    FreesAlone(h0, base, top);
    FreesInto(h1, b, base, top);
    var h2 := MergeBack(Release(h1, b), b);
    h := PutUsed(h2, base);
    assert FirstFit([Block(base, x + HEADER + y, false), Block(c, z, true)], x + HEADER + y, 0) == 0;
  }

  /** Free the third block then: its link back leads to the dead header inside the first, which is in
      use.  If that header is still there, the free writes in the first block.  If the owner's bytes
      there say "in use", the first block goes on leading to the third, which is no block any more.  So
      the free is not sound. */
  lemma ReusedBlockIsWritten(base: nat, x: nat, y: nat, z: nat, kept: set<nat>) returns (h: Headers, e: Headers, o: Headers)
    requires HEADER <= base
    ensures var b := base + HEADER + x;
            h == map[base := AllocNode(true, x + HEADER + y, NULL, b + HEADER + y, MAGIC),
                     b := AllocNode(false, y, base, b + HEADER + y, 0),
                     b + HEADER + y := AllocNode(true, z, b, NULL, MAGIC)]
    ensures var c := base + HEADER + x + HEADER + y;
            !SoundFree(h, [Block(base, x + HEADER + y, true), Block(c, z, true)], c, kept)
    ensures var b, c := base + HEADER + x, base + HEADER + x + HEADER + y;
            && Inside(Block(base, x + HEADER + y, true), b)
            && e == FreedHeaders(h, c, c + HEADER + z, false) && b in h && b in e && e[b] != h[b]
    ensures var b, c := base + HEADER + x, base + HEADER + x + HEADER + y;
            && o == FreedHeaders(h[b := AllocNode(true, 7, 0, 0, 0)], c, c + HEADER + z, false)
            && base in o && o[base].next == c && c in o && o[c].signature != MAGIC
  {
    var b := base + HEADER + x;
    var c := b + HEADER + y;
    var bs := [Block(base, x + HEADER + y, true), Block(c, z, true)];
    h := HandedOutAgain(base, x, y, z);
    assert IndexOf(bs, c, 0) == 1 && LeftEnd(bs, 1) == 1;
    assert !PrevOk(h, bs, 1);
    FreesIntoLast(h, c, b, c + HEADER + z);
    e := FreedHeaders(h, c, c + HEADER + z, false);
    var g := h[b := AllocNode(true, 7, 0, 0, 0)];
    FreesLast(g, c, c + HEADER + z);
    o := FreedHeaders(g, c, c + HEADER + z, false);
  }

  /** The last block, whose link back leads to bytes that say "free" and lead to a block in use. */
  lemma FreesIntoLast(hdr: Headers, c: nat, p: nat, top: nat)
    requires IsUsedHeader(hdr, c) && hdr[c].next == NULL && hdr[c].prev == p && p in hdr && NULL < p < c && !hdr[p].inUse
    requires hdr[p].prev in hdr && NULL < hdr[p].prev < p && hdr[hdr[p].prev].inUse
    ensures FreedHeaders(hdr, c, top, false) == Trim(MergeBack(Release(hdr, c), c), p)
  {
    var r := Release(hdr, c);
    var h := MergeBack(r, c);
    assert !FreeBefore(h, p) && !FreeAfter(h, p, top);
    assert LoopBack(r, c) == LoopBack(h, p) == (h, p);
  }

  /** The last block, whose link back leads to bytes that say "in use". */
  lemma FreesLast(hdr: Headers, c: nat, top: nat)
    requires IsUsedHeader(hdr, c) && hdr[c].next == NULL && hdr[c].prev in hdr && hdr[c].prev < c && hdr[hdr[c].prev].inUse
    ensures FreedHeaders(hdr, c, top, false) == Trim(Release(hdr, c), c)
  {
    var r := Release(hdr, c);
    assert !FreeBefore(r, c) && !FreeAfter(r, c, top);
  }
}
