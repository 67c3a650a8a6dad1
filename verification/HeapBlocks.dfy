/** The heap of Memory_Manager/totalrecall.c as a list of blocks: what allocating and freeing mean,
    and what holds over whole runs of them. */
module HeapBlocks {

  const HEADER: nat := 32   // sizeof(AllocNode)

  /** `cap` bytes for the user behind a header at `addr`. */
  datatype Block = Block(addr: nat, cap: nat, used: bool)

  function End(b: Block): nat {
    b.addr + HEADER + b.cap
  }

  /** The blocks lie end to end from base on. */
  ghost predicate Tiled(bs: seq<Block>, base: nat) {
    && (bs != [] ==> bs[0].addr == base)
    && forall i, j :: 0 <= i < j < |bs| && j == i + 1 ==> bs[j].addr == End(bs[i])
  }

  function Top(bs: seq<Block>, base: nat): nat {
    if bs == [] then base else End(bs[|bs| - 1])
  }

  /** No two free blocks side by side, and no free block at the end. */
  ghost predicate Normal(bs: seq<Block>) {
    && (forall i, j :: 0 <= i < j < |bs| && j == i + 1 ==> bs[i].used || bs[j].used)
    && (bs != [] ==> bs[|bs| - 1].used)
  }

  lemma {:induction false} TiledOrder(bs: seq<Block>, base: nat, i: nat, j: nat)
    requires Tiled(bs, base) && i < j < |bs|
    ensures End(bs[i]) <= bs[j].addr
    decreases j
  {
    if i < j - 1 {
      TiledOrder(bs, base, i, j - 1);
    }
  }

  // ---------- freeing ----------

  /** The first block of the run of free blocks that ends just before block i. */
  function LeftEnd(bs: seq<Block>, i: nat): (l: nat)
    requires i <= |bs|
    ensures l <= i && (forall k :: l <= k < i ==> !bs[k].used) && (l > 0 ==> bs[l - 1].used)
  {
    if i > 0 && !bs[i - 1].used then LeftEnd(bs, i - 1) else i
  }

  /** The end of the run of free blocks that begins with block i. */
  function RightEnd(bs: seq<Block>, i: nat): (r: nat)
    requires i <= |bs|
    ensures i <= r <= |bs| && (forall k :: i <= k < r ==> !bs[k].used) && (r < |bs| ==> bs[r].used)
    decreases |bs| - i
  {
    if i < |bs| && !bs[i].used then RightEnd(bs, i + 1) else i
  }

  /** The block that blocks l..r make up as one free block. */
  function OneFree(bs: seq<Block>, l: nat, r: nat): Block
    requires l < r <= |bs| && bs[l].addr + HEADER <= End(bs[r - 1])
  {
    Block(bs[l].addr, End(bs[r - 1]) - bs[l].addr - HEADER, false)
  }

  /** That block and what follows it; nothing at the end of the heap. */
  function FromRun(bs: seq<Block>, l: nat, r: nat): seq<Block>
    requires l < r <= |bs| && bs[l].addr + HEADER <= End(bs[r - 1])
  {
    if r == |bs| then [] else [OneFree(bs, l, r)] + bs[r..]
  }

  /** Free block i: it merges with the free blocks on both sides, and goes away at the end of the heap. */
  function FreeAt(bs: seq<Block>, base: nat, i: nat): (r: seq<Block>)
    requires Tiled(bs, base) && i < |bs|
  {
    var l, r := LeftEnd(bs, i), RightEnd(bs, i + 1);
    RunHasRoom(bs, base, l, r);
    bs[..l] + FromRun(bs, l, r)
  }

  lemma RunHasRoom(bs: seq<Block>, base: nat, l: nat, r: nat)
    requires Tiled(bs, base) && l < r <= |bs|
    ensures bs[l].addr + HEADER <= End(bs[r - 1])
  {
    if l < r - 1 { TiledOrder(bs, base, l, r - 1); }
  }

  /** Block b in front of a normal list. */
  function Absorb(b: Block, rest: seq<Block>): (r: seq<Block>)
    requires Normal(rest)
    ensures Normal(r)
  {
    if b.used then [b] + rest
    else if rest == [] then []
    else if rest[0].used then [b] + rest
    else [Block(b.addr, b.cap + HEADER + rest[0].cap, false)] + rest[1..]
  }

  /** Independent of any order of merging: a list with all runs of free blocks merged, and no free end. */
  function Coalesced(bs: seq<Block>): (r: seq<Block>)
    ensures Normal(r)
  {
    if bs == [] then [] else Absorb(bs[0], Coalesced(bs[1..]))
  }

  lemma {:induction false} NormalIsCoalesced(bs: seq<Block>)
    requires Normal(bs)
    ensures Coalesced(bs) == bs
  {
    hide Normal, Absorb;
    if bs != [] {
      AbsorbNormal(bs);
      NormalIsCoalesced(bs[1..]);
    }
  }

  lemma AbsorbNormal(bs: seq<Block>)
    requires Normal(bs) && bs != []
    ensures Normal(bs[1..]) && Absorb(bs[0], bs[1..]) == bs
  {
    assert bs == [bs[0]] + bs[1..];
    assert bs[1..] != [] ==> bs[1..][0] == bs[1];
  }

  lemma CoalescedHead(b: Block, rest: seq<Block>)
    requires Normal(rest)
    ensures Coalesced([b] + rest) == Absorb(b, rest)
  {
    hide Absorb, Normal;
    NormalIsCoalesced(rest);
    assert ([b] + rest)[1..] == rest;
  }

  /** What lies around a used block of a normal heap. */
  lemma Around(bs: seq<Block>, base: nat, i: nat, l: nat, r: nat)
    requires Tiled(bs, base) && Normal(bs) && i < |bs| && bs[i].used
    requires l == LeftEnd(bs, i) && r == RightEnd(bs, i + 1)
    ensures Normal(bs[i + 1..])
    ensures if r == i + 1 then r == |bs| || bs[r].used
            else r == i + 2 < |bs| && !bs[i + 1].used && bs[i + 1].addr == End(bs[i])
    ensures l == i || (l + 1 == i && !bs[l].used && bs[i].addr == End(bs[l]))
  {
    FreeInNormal(bs, base, i);
  }

  lemma RunCoalescedRight(bs: seq<Block>, base: nat, i: nat, l: nat, r: nat)
    requires Tiled(bs, base) && Normal(bs) && i < |bs| && bs[i].used
    requires l == LeftEnd(bs, i) && r == RightEnd(bs, i + 1)
    ensures bs[i].addr + HEADER <= End(bs[r - 1])
    ensures Coalesced([bs[i].(used := false)] + bs[i + 1..]) == FromRun(bs, i, r)
  {
    hide Coalesced, Normal, LeftEnd, RightEnd, Tiled, Absorb, FromRun;
    Around(bs, base, i, l, r);
    CoalescedHead(bs[i].(used := false), bs[i + 1..]);
    AbsorbRight(bs, i, r);
  }

  lemma AbsorbRight(bs: seq<Block>, i: nat, r: nat)
    requires i < |bs| && Normal(bs[i + 1..])
    requires if r == i + 1 then r == |bs| || bs[r].used
             else r == i + 2 < |bs| && !bs[i + 1].used && bs[i + 1].addr == End(bs[i])
    ensures bs[i].addr + HEADER <= End(bs[r - 1])
    ensures Absorb(bs[i].(used := false), bs[i + 1..]) == FromRun(bs, i, r)
  {
    hide Normal;
    SliceOfSlice(bs, i + 1);
  }

  lemma AbsorbLeft(bs: seq<Block>, l: nat, r: nat)
    requires l + 1 < r <= |bs| && !bs[l].used && bs[l + 1].addr == End(bs[l])
    requires bs[l + 1].addr + HEADER <= End(bs[r - 1]) && Normal(FromRun(bs, l + 1, r))
    ensures Absorb(bs[l], FromRun(bs, l + 1, r)) == FromRun(bs, l, r)
  {
    hide Normal;
  }

  lemma SliceOfSlice<T>(s: seq<T>, i: nat)
    requires i <= |s|
    ensures i < |s| ==> s[i..][0] == s[i] && s[i..][1..] == s[i + 1..]
  {
  }

  /** The run of free blocks around i, coalesced, is what FreeAt puts in its place. */
  lemma RunCoalesced(bs: seq<Block>, base: nat, i: nat, l: nat, r: nat)
    requires Tiled(bs, base) && Normal(bs) && i < |bs| && bs[i].used
    requires l == LeftEnd(bs, i) && r == RightEnd(bs, i + 1)
    ensures bs[l].addr + HEADER <= End(bs[r - 1])
    ensures Coalesced(bs[i := bs[i].(used := false)][l..]) == FromRun(bs, l, r)
  {
    hide Coalesced, Normal, LeftEnd, RightEnd, Tiled, Absorb, FromRun;
    Around(bs, base, i, l, r);
    RunCoalescedRight(bs, base, i, l, r);
    ChangedSuffix(bs, i, l);
    if l < i {
      CoalescedPair(bs[l], [bs[i].(used := false)] + bs[i + 1..]);
      AbsorbLeft(bs, l, r);
    }
  }

  lemma ChangedSuffix(bs: seq<Block>, i: nat, l: nat)
    requires i < |bs| && (l == i || l + 1 == i)
    ensures var run := [bs[i].(used := false)] + bs[i + 1..];
            bs[i := bs[i].(used := false)][l..] == if l == i then run else [bs[l]] + run
  {
  }

  lemma CoalescedPair(b: Block, rest: seq<Block>)
    ensures Coalesced([b] + rest) == Absorb(b, Coalesced(rest))
  {
    hide Absorb, Normal;
    assert ([b] + rest)[1..] == rest;
  }

  /** In a normal heap, freeing a block coalesces everything: the local merging is enough. */
  lemma FreeIsCoalescing(bs: seq<Block>, base: nat, i: nat)
    requires Tiled(bs, base) && Normal(bs) && i < |bs| && bs[i].used
    ensures FreeAt(bs, base, i) == Coalesced(bs[i := bs[i].(used := false)])
  {
    hide Coalesced;
    var fs, l, r := bs[i := bs[i].(used := false)], LeftEnd(bs, i), RightEnd(bs, i + 1);
    FreeInNormal(bs, base, i);
    RunCoalesced(bs, base, i, l, r);
    PrefixStays(fs, l);
    assert fs[..l] == bs[..l];
  }

  /** Blocks before l stay when block l - 1 is in use. */
  lemma {:induction false} PrefixStays(bs: seq<Block>, l: nat)
    requires l <= |bs| && (l > 0 ==> bs[l - 1].used)
    requires forall i, j :: 0 <= i < j < l && j == i + 1 ==> bs[i].used || bs[j].used
    ensures Coalesced(bs) == bs[..l] + Coalesced(bs[l..])
  {
    hide Normal, Absorb;
    if l == 0 {
      assert bs[0..] == bs;
    } else {
      var rest, c := bs[1..], Coalesced(bs[l..]);
      PrefixStays(rest, l - 1);
      SliceOfSlices(bs, l);
      AbsorbInFront(bs[0], rest[..l - 1], c);
    }
  }

  lemma SliceOfSlices<T>(s: seq<T>, l: nat)
    requires 0 < l <= |s|
    ensures s[1..][l - 1..] == s[l..] && s[..l] == [s[0]] + s[1..][..l - 1]
  {
  }

  lemma AbsorbInFront(b: Block, mid: seq<Block>, c: seq<Block>)
    requires Normal(mid + c) && (b.used || (mid != [] && mid[0].used))
    ensures Absorb(b, mid + c) == [b] + mid + c
  {
    hide Normal;
  }

  /** In a normal heap at most one free block lies on each side. */
  lemma FreeInNormal(bs: seq<Block>, base: nat, i: nat)
    requires Tiled(bs, base) && Normal(bs) && i < |bs| && bs[i].used
    ensures LeftEnd(bs, i) == if i > 0 && !bs[i - 1].used then i - 1 else i
    ensures RightEnd(bs, i + 1) == if i + 1 < |bs| && !bs[i + 1].used then i + 2 else i + 1
  {
  }

  /** Freeing keeps the blocks end to end, whatever the heap looked like. */
  lemma FreeKeepsTiled(bs: seq<Block>, base: nat, i: nat)
    requires Tiled(bs, base) && i < |bs|
    ensures Tiled(FreeAt(bs, base, i), base)
    ensures Top(FreeAt(bs, base, i), base) ==
              if RightEnd(bs, i + 1) < |bs| then Top(bs, base)
              else if LeftEnd(bs, i) > 0 then End(bs[LeftEnd(bs, i) - 1]) else base
  {
    var l, r := LeftEnd(bs, i), RightEnd(bs, i + 1);
    RunHasRoom(bs, base, l, r);
    TiledSplit(bs, base, l);
    if r < |bs| {
      TiledSplit(bs, base, r);
      hide LeftEnd, RightEnd, Tiled;
      TiledJoin([OneFree(bs, l, r)], bs[r..], bs[l].addr);
      TiledJoin(bs[..l], [OneFree(bs, l, r)] + bs[r..], base);
    } else {
      assert bs[..l] + [] == bs[..l];
    }
  }

  lemma TiledSplit(bs: seq<Block>, base: nat, k: nat)
    requires Tiled(bs, base) && k <= |bs|
    ensures Tiled(bs[..k], base) && Tiled(bs[k..], Top(bs[..k], base))
    ensures Top(bs[k..], Top(bs[..k], base)) == Top(bs, base)
    ensures k < |bs| ==> Top(bs[..k], base) == bs[k].addr
  {
  }

  lemma TiledJoin(a: seq<Block>, b: seq<Block>, base: nat)
    requires Tiled(a, base) && Tiled(b, Top(a, base))
    ensures Tiled(a + b, base) && Top(a + b, base) == Top(b, Top(a, base))
  {
  }

  /** Every block outside the run around i stays as it was; the run held no used block but i, and
      is now one free block, or gone if nothing follows it. */
  lemma FreeKeepsOthers(bs: seq<Block>, base: nat, i: nat)
    requires Tiled(bs, base) && i < |bs|
    ensures var l, r, f := LeftEnd(bs, i), RightEnd(bs, i + 1), FreeAt(bs, base, i);
            && l <= i < r <= |bs| && bs[l].addr + HEADER <= End(bs[r - 1])
            && (forall b :: b in bs[l..r] && b.used ==> b == bs[i])
            && (r < |bs| ==> bs[r].used) && (l > 0 ==> bs[l - 1].used)
            && (if r == |bs| then f == bs[..l]
                else |f| == l + 1 + |bs| - r && f[..l] == bs[..l] && f[l] == OneFree(bs, l, r) && f[l + 1..] == bs[r..])
  {
    hide Tiled;
    RunAround(bs, base, i);
    FreedParts(bs, base, i);
  }

  lemma RunAround(bs: seq<Block>, base: nat, i: nat)
    requires Tiled(bs, base) && i < |bs|
    ensures var l, r := LeftEnd(bs, i), RightEnd(bs, i + 1);
            && l <= i < r <= |bs| && bs[l].addr + HEADER <= End(bs[r - 1])
            && (forall b :: b in bs[l..r] && b.used ==> b == bs[i])
            && (r < |bs| ==> bs[r].used) && (l > 0 ==> bs[l - 1].used)
  {
    var l, r := LeftEnd(bs, i), RightEnd(bs, i + 1);
    RunHasRoom(bs, base, l, r);
    hide LeftEnd, RightEnd, Tiled;
    forall b | b in bs[l..r] && b.used ensures b == bs[i] {
      var k :| 0 <= k < r - l && bs[l..r][k] == b;
      assert bs[l + k] == b;
    }
  }

  lemma FreedParts(bs: seq<Block>, base: nat, i: nat)
    requires Tiled(bs, base) && i < |bs|
    ensures var l, r, f := LeftEnd(bs, i), RightEnd(bs, i + 1), FreeAt(bs, base, i);
            && l < r <= |bs| && bs[l].addr + HEADER <= End(bs[r - 1])
            && (if r == |bs| then f == bs[..l]
                else |f| == l + 1 + |bs| - r && f[..l] == bs[..l] && f[l] == OneFree(bs, l, r) && f[l + 1..] == bs[r..])
  {
    hide Tiled, LeftEnd, RightEnd;
    var l, r := LeftEnd(bs, i), RightEnd(bs, i + 1);
    RunHasRoom(bs, base, l, r);
    assert bs[..l] + [] == bs[..l];
  }

  // ---------- allocating ----------

  /** The first free block of exactly this size, or the end of the list. */
  function FirstFit(bs: seq<Block>, size: nat, from: nat): (i: nat)
    requires from <= |bs|
    ensures from <= i <= |bs| && (i < |bs| ==> !bs[i].used && bs[i].cap == size)
    ensures forall k :: from <= k < i ==> bs[k].used || bs[k].cap != size
    decreases |bs| - from
  {
    if from < |bs| && !(!bs[from].used && bs[from].cap == size) then FirstFit(bs, size, from + 1) else from
  }

  /** A successful allocation takes the first free block of exactly the size asked for, and
      otherwise appends a block. */
  function Allocated(bs: seq<Block>, base: nat, size: nat): (r: seq<Block>) {
    var i := FirstFit(bs, size, 0);
    if i < |bs| then bs[i := bs[i].(used := true)] else bs + [Block(Top(bs, base), size, true)]
  }

  /** The address of the block that Allocated hands out. */
  function Place(bs: seq<Block>, base: nat, size: nat): (a: nat) {
    var i := FirstFit(bs, size, 0);
    if i < |bs| then bs[i].addr else Top(bs, base)
  }

  lemma AllocKeepsTiled(bs: seq<Block>, base: nat, size: nat)
    requires Tiled(bs, base)
    ensures Tiled(Allocated(bs, base, size), base)
    ensures Normal(bs) ==> Normal(Allocated(bs, base, size))
  {
    hide FirstFit;
  }

  // ---------- what the user of the heap sees ----------

  lemma AddressesDiffer(bs: seq<Block>, base: nat)
    requires Tiled(bs, base)
    ensures forall i, j :: 0 <= i < j < |bs| ==> bs[i].addr < bs[j].addr && End(bs[i]) <= bs[j].addr
  {
    forall i, j | 0 <= i < j < |bs| ensures End(bs[i]) <= bs[j].addr {
      TiledOrder(bs, base, i, j);
    }
  }

  /** The live blocks: from the address of a used block to its size. */
  ghost function Live(bs: seq<Block>, base: nat): map<nat, nat>
    requires Tiled(bs, base)
  {
    AddressesDiffer(bs, base);
    map i | 0 <= i < |bs| && bs[i].used :: bs[i].addr := bs[i].cap
  }

  /** No byte of block (a, n) is in a block of m. */
  ghost predicate Apart(m: map<nat, nat>, a: nat, n: nat) {
    forall k :: k in m ==> k + HEADER + m[k] <= a || a + HEADER + n <= k
  }

  lemma LiveAt(bs: seq<Block>, base: nat, i: nat)
    requires Tiled(bs, base) && i < |bs| && bs[i].used
    ensures bs[i].addr in Live(bs, base) && Live(bs, base)[bs[i].addr] == bs[i].cap
  {
    AddressesDiffer(bs, base);
  }

  lemma LiveIndex(bs: seq<Block>, base: nat, a: nat) returns (i: nat)
    requires Tiled(bs, base) && a in Live(bs, base)
    ensures i < |bs| && bs[i].used && bs[i].addr == a && bs[i].cap == Live(bs, base)[a]
  {
    i :| 0 <= i < |bs| && bs[i].used && bs[i].addr == a;
    LiveAt(bs, base, i);
  }

  /** Two heaps with the same live blocks, but for block a. */
  lemma SameLive(bs: seq<Block>, r: seq<Block>, base: nat, a: nat)
    requires Tiled(bs, base) && Tiled(r, base)
    requires forall b :: b in bs && b.used && b.addr != a ==> b in r
    requires forall b :: b in r && b.used && b.addr != a ==> b in bs
    ensures Live(r, base) - {a} == Live(bs, base) - {a}
  {
    hide Tiled, Live;
    forall k | k in Live(bs, base) && k != a ensures k in Live(r, base) && Live(r, base)[k] == Live(bs, base)[k] {
      var i := LiveIndex(bs, base, k);
      assert bs[i] in r;
      var j :| 0 <= j < |r| && r[j] == bs[i];
      LiveAt(r, base, j);
    }
    forall k | k in Live(r, base) && k != a ensures k in Live(bs, base) {
      var i := LiveIndex(r, base, k);
      assert r[i] in bs;
      var j :| 0 <= j < |bs| && bs[j] == r[i];
      LiveAt(bs, base, j);
    }
  }

  lemma AllocShape(bs: seq<Block>, base: nat, size: nat)
    requires Tiled(bs, base)
    ensures var r, a := Allocated(bs, base, size), Place(bs, base, size);
            && Block(a, size, true) in r
            && (forall b :: b in bs && b.used ==> b in r && (End(b) <= a || a + HEADER + size <= b.addr))
            && (forall b :: b in r && b.used ==> b == Block(a, size, true) || b in bs)
  {
    var r, at := Allocated(bs, base, size), FirstFit(bs, size, 0);
    AddressesDiffer(bs, base);
    hide FirstFit, Tiled;
    assert r[at] == Block(Place(bs, base, size), size, true);
    forall b | b in bs && b.used
      ensures b in r && (End(b) <= Place(bs, base, size) || Place(bs, base, size) + HEADER + size <= b.addr)
    {
      var i :| 0 <= i < |bs| && bs[i] == b;
      assert r[i] == b;
      if at == |bs| && i < |bs| - 1 { assert End(bs[i]) <= bs[|bs| - 1].addr; }
    }
    forall b | b in r && b.used ensures b == Block(Place(bs, base, size), size, true) || b in bs {
      var i :| 0 <= i < |r| && r[i] == b;
      if i != at { assert bs[i] == b; }
    }
  }

  /** Allocation hands out a new block, apart from all live ones, and touches none of them. */
  lemma AllocLive(bs: seq<Block>, base: nat, size: nat)
    requires Tiled(bs, base)
    ensures var r, a := Allocated(bs, base, size), Place(bs, base, size);
            && Tiled(r, base)
            && a !in Live(bs, base) && Apart(Live(bs, base), a, size)
            && Live(r, base) == Live(bs, base)[a := size]
  {
    var r, a := Allocated(bs, base, size), Place(bs, base, size);
    AllocKeepsTiled(bs, base, size);
    AllocShape(bs, base, size);
    hide Tiled, Live, Allocated, Place;
    forall k | k in Live(bs, base) ensures k != a && (k + HEADER + Live(bs, base)[k] <= a || a + HEADER + size <= k) {
      var i := LiveIndex(bs, base, k);
      assert bs[i] in bs;
    }
    SameLive(bs, r, base, a);
    var h :| 0 <= h < |r| && r[h] == Block(a, size, true);
    LiveAt(r, base, h);
    RebuildMap(Live(bs, base), Live(r, base), a, size);
  }

  lemma RebuildMap(m: map<nat, nat>, m': map<nat, nat>, a: nat, n: nat)
    requires m' - {a} == m - {a} && a in m' && m'[a] == n && a !in m
    ensures m' == m[a := n]
  {
    assert forall k :: k != a ==> (k in m' <==> k in m' - {a}) && (k in m <==> k in m - {a});
    assert forall k :: k in m && k != a ==> m'[k] == (m' - {a})[k] == (m - {a})[k] == m[k];
  }

  lemma InParts<T>(s: seq<T>, l: nat, r: nat)
    requires l <= r <= |s|
    ensures forall x :: x in s <==> x in s[..l] || x in s[l..r] || x in s[r..]
  {
    assert s == s[..l] + s[l..r] + s[r..];
  }

  lemma FreeBlocks(bs: seq<Block>, base: nat, i: nat)
    requires Tiled(bs, base) && i < |bs| && bs[i].used
    ensures var r := FreeAt(bs, base, i);
            && (forall b :: b in bs && b.used && b != bs[i] ==> b in r)
            && (forall b :: b in r && b.used ==> b in bs && b != bs[i])
  {
    var l, r := LeftEnd(bs, i), RightEnd(bs, i + 1);
    RunAround(bs, base, i);
    InParts(bs, l, r);
    NotElsewhere(bs, base, i, l, r);
    hide LeftEnd, RightEnd, FreeAt, Tiled;
  }

  lemma NotElsewhere(bs: seq<Block>, base: nat, i: nat, l: nat, r: nat)
    requires Tiled(bs, base) && l <= i < r <= |bs|
    ensures bs[i] !in bs[..l] && bs[i] !in bs[r..]
  {
    AddressesDiffer(bs, base);
  }

  /** Freeing a live block takes that block away and touches no other. */
  lemma FreeLive(bs: seq<Block>, base: nat, i: nat)
    requires Tiled(bs, base) && i < |bs| && bs[i].used
    ensures var r := FreeAt(bs, base, i);
            Tiled(r, base) && Live(r, base) == Live(bs, base) - {bs[i].addr}
  {
    var r, a := FreeAt(bs, base, i), bs[i].addr;
    FreeKeepsTiled(bs, base, i);
    FreeBlocks(bs, base, i);
    OnlyBlockAt(bs, base, i);
    hide FreeAt, Tiled, Live;
    SameLive(bs, r, base, a);
    Gone(r, base, a);
    DropFromMap(Live(bs, base), Live(r, base), a);
  }

  lemma Gone(bs: seq<Block>, base: nat, a: nat)
    requires Tiled(bs, base) && forall b :: b in bs && b.used ==> b.addr != a
    ensures a !in Live(bs, base)
  {
    hide Tiled, Live;
    if a in Live(bs, base) {
      var h := LiveIndex(bs, base, a);
      assert false;
    }
  }

  lemma DropFromMap(m: map<nat, nat>, m': map<nat, nat>, a: nat)
    requires m' - {a} == m - {a} && a !in m'
    ensures m' == m - {a}
  {
    assert m' - {a} == m';
  }

  lemma OnlyBlockAt(bs: seq<Block>, base: nat, i: nat)
    requires Tiled(bs, base) && i < |bs|
    ensures forall b :: b in bs && b.addr == bs[i].addr ==> b == bs[i]
  {
    AddressesDiffer(bs, base);
  }

  // ---------- whole runs ----------

  datatype Op = Alloc(size: nat) | Free(addr: nat)

  /** The block at address a, if there is one. */
  function IndexOf(bs: seq<Block>, a: nat, from: nat): (i: nat)
    requires from <= |bs|
    ensures from <= i <= |bs| && (i < |bs| ==> bs[i].addr == a)
    ensures forall k :: from <= k < i ==> bs[k].addr != a
    decreases |bs| - from
  {
    if from < |bs| && bs[from].addr != a then IndexOf(bs, a, from + 1) else from
  }

  /** Freeing an address that is no live block changes nothing. */
  function Freed(bs: seq<Block>, base: nat, a: nat): (r: seq<Block>)
    requires Tiled(bs, base)
  {
    var i := IndexOf(bs, a, 0);
    if i < |bs| && bs[i].used then FreeAt(bs, base, i) else bs
  }

  lemma FreedLive(bs: seq<Block>, base: nat, a: nat)
    requires Tiled(bs, base)
    ensures var r := Freed(bs, base, a);
            && Tiled(r, base) && Live(r, base) == Live(bs, base) - {a}
            && (Normal(bs) ==> Normal(r))
  {
    var i := IndexOf(bs, a, 0);
    hide Tiled, Live, Normal, FreeAt, IndexOf;
    if i < |bs| && bs[i].used {
      FreeLive(bs, base, i);
      if Normal(bs) { FreeIsCoalescing(bs, base, i); }
    } else {
      NotLive(bs, base, a);
      assert Live(bs, base) - {a} == Live(bs, base);
    }
  }

  lemma NotLive(bs: seq<Block>, base: nat, a: nat)
    requires Tiled(bs, base)
    requires var i := IndexOf(bs, a, 0); !(i < |bs| && bs[i].used)
    ensures a !in Live(bs, base)
  {
    if a in Live(bs, base) {
      var j := LiveIndex(bs, base, a);
      AddressesDiffer(bs, base);
      assert false;
    }
  }

  ghost function Run(bs: seq<Block>, base: nat, ops: seq<Op>): (r: seq<Block>)
    requires Tiled(bs, base)
    ensures Tiled(r, base)
    decreases |ops|
  {
    if ops == [] then bs else
    match ops[0]
    case Alloc(n) => AllocKeepsTiled(bs, base, n); Run(Allocated(bs, base, n), base, ops[1..])
    case Free(a) => FreedLive(bs, base, a); Run(Freed(bs, base, a), base, ops[1..])
  }

  /** The same run on the simple view, which only knows addresses and sizes. */
  ghost function SimpleRun(m: map<nat, nat>, bs: seq<Block>, base: nat, ops: seq<Op>): map<nat, nat>
    requires Tiled(bs, base)
    decreases |ops|
  {
    if ops == [] then m else
    match ops[0]
    case Alloc(n) =>
      AllocKeepsTiled(bs, base, n);
      SimpleRun(m[Place(bs, base, n) := n], Allocated(bs, base, n), base, ops[1..])
    case Free(a) =>
      FreedLive(bs, base, a);
      SimpleRun(m - {a}, Freed(bs, base, a), base, ops[1..])
  }

  /** Over any run the heap stays end to end and normal, and its live blocks are exactly those
      handed out and not yet freed, with their sizes. */
  lemma {:induction false} RunRefines(bs: seq<Block>, base: nat, ops: seq<Op>)
    requires Tiled(bs, base) && Normal(bs)
    ensures Tiled(Run(bs, base, ops), base) && Normal(Run(bs, base, ops))
    ensures Live(Run(bs, base, ops), base) == SimpleRun(Live(bs, base), bs, base, ops)
    decreases |ops|
  {
    hide Tiled, Normal, Live, Allocated, Freed, Place;
    if ops != [] {
      match ops[0]
      case Alloc(n) =>
        AllocKeepsTiled(bs, base, n);
        AllocLive(bs, base, n);
        RunRefines(Allocated(bs, base, n), base, ops[1..]);
      case Free(a) =>
        FreedLive(bs, base, a);
        RunRefines(Freed(bs, base, a), base, ops[1..]);
    }
  }

  /** A normal heap without live blocks is empty. */
  lemma NothingLiveIsEmpty(bs: seq<Block>, base: nat)
    requires Tiled(bs, base) && Normal(bs) && Live(bs, base) == map[]
    ensures bs == []
  {
    if bs != [] {
      LiveAt(bs, base, |bs| - 1);
    }
  }

  function Frees(order: seq<nat>): (ops: seq<Op>) {
    seq(|order|, i requires 0 <= i < |order| => Free(order[i]))
  }

  lemma {:induction false} FreesTakeAway(bs: seq<Block>, base: nat, order: seq<nat>)
    requires Tiled(bs, base)
    ensures Live(Run(bs, base, Frees(order)), base) == Live(bs, base) - (set a | a in order)
    decreases |order|
  {
    hide Tiled, Live, Freed;
    if order == [] {
      assert Live(bs, base) - (set a | a in order) == Live(bs, base);
    } else {
      FreedLive(bs, base, order[0]);
      assert Frees(order)[1..] == Frees(order[1..]);
      FreesTakeAway(Freed(bs, base, order[0]), base, order[1..]);
      assert (set a | a in order) == {order[0]} + (set a | a in order[1..]);
    }
  }

  /** Freeing all live blocks, in any order, empties the heap. */
  lemma FreeingAllEmpties(bs: seq<Block>, base: nat, order: seq<nat>)
    requires Tiled(bs, base) && Normal(bs)
    requires forall a :: a in Live(bs, base) ==> a in order
    ensures Run(bs, base, Frees(order)) == []
  {
    hide Tiled, Normal, Live;
    FreesTakeAway(bs, base, order);
    RunRefines(bs, base, Frees(order));
    assert Live(bs, base) - (set a | a in order) == map[];
    NothingLiveIsEmpty(Run(bs, base, Frees(order)), base);
  }
}
