/** When a free as the program does it comes out right, whatever the owners wrote in their blocks. */
module HeapFrees {
  import opened HeapBlocks
  import opened HeapHeaders

  // ---------- links back ----------

  /** From address a the links back come to lo, over headers that are kept. */
  ghost predicate Leads(hdr: Headers, a: nat, lo: nat, kept: set<nat>)
    decreases a
  {
    a == lo || (lo < a && a in kept && a in hdr && hdr[a].prev < a && Leads(hdr, hdr[a].prev, lo, kept))
  }

  /** The link back of block k leads to the block before it, if need be over headers that are kept. */
  ghost predicate BackOk(hdr: Headers, bs: seq<Block>, k: nat, kept: set<nat>)
    requires k < |bs|
  {
    k > 0 ==> bs[k].addr in hdr && Leads(hdr, hdr[bs[k].addr].prev, bs[k - 1].addr, kept)
  }

  /** One link more. */
  lemma {:induction false} LeadsOneMore(hdr: Headers, a: nat, c: nat, kept: set<nat>)
    requires Leads(hdr, a, c, kept) && c in kept && c in hdr && hdr[c].prev < c
    ensures Leads(hdr, a, hdr[c].prev, kept)
    decreases a
  {
    if a != c {
      LeadsOneMore(hdr, hdr[a].prev, c, kept);
    }
  }

  /** On the way from a to lo lies c: from there it goes on to lo. */
  lemma {:induction false} LeadsFrom(hdr: Headers, a: nat, c: nat, lo: nat, kept: set<nat>)
    requires Leads(hdr, a, lo, kept) && Leads(hdr, a, c, kept) && lo <= c
    ensures Leads(hdr, c, lo, kept)
    decreases a
  {
    if a != c && a != lo {
      LeadsFrom(hdr, hdr[a].prev, c, lo, kept);
    }
  }

  // ---------- the invariant of both loops ----------

  /** Outside lo..hi the headers are as they were. */
  ghost predicate SameOutside(hdr: Headers, h: Headers, lo: nat, hi: nat) {
    && h.Keys == hdr.Keys
    && forall a :: a in hdr && (a < lo || hi < a) ==> h[a] == hdr[a]
  }

  /** From lo to hi no header carries the signature, the links back are as they were, and nothing but
      f, which is now free, changed its in-use mark. */
  ghost predicate Swallowed(hdr: Headers, h: Headers, lo: nat, hi: nat, f: nat) {
    && h.Keys == hdr.Keys
    && forall a :: lo < a <= hi && a in hdr ==>
         && h[a].signature != MAGIC && h[a].prev == hdr[a].prev
         && h[a].inUse == (hdr[a].inUse && a != f)
  }

  /** The links back of blocks m + 1 to i are right. */
  ghost predicate LinksRight(hdr: Headers, bs: seq<Block>, m: nat, i: nat)
    requires i < |bs|
  {
    forall j :: m < j <= i ==> PrevOk(hdr, bs, j)
  }

  /** The links back of blocks m + 1 to i lead to the blocks before. */
  ghost predicate LinksLead(hdr: Headers, bs: seq<Block>, m: nat, i: nat, kept: set<nat>)
    requires i < |bs|
  {
    forall j :: m < j <= i ==> BackOk(hdr, bs, j, kept)
  }

  /** Header c is that of block m, or one that is kept on the way back from block m to block m - 1. */
  ghost predicate OnTheWay(hdr: Headers, bs: seq<Block>, m: nat, c: nat, kept: set<nat>)
    requires m < |bs|
  {
    || c == bs[m].addr
    || (m > 0 && bs[m - 1].addr < c < bs[m].addr && c in kept && !PrevOk(hdr, bs, m)
        && bs[m].addr in hdr && Leads(hdr, hdr[bs[m].addr].prev, c, kept))
  }

  /** How far the node at c reaches: to the end of block r - 1 if all links back were right, and
      beyond it if it swallowed a dead header. */
  ghost predicate Reaches(hdr: Headers, bs: seq<Block>, m: nat, i: nat, r: nat, c: nat, cap: nat)
    requires m <= i < r <= |bs|
  {
    if c == bs[m].addr
    then End(bs[r - 1]) <= c + HEADER + cap && (c + HEADER + cap == End(bs[r - 1]) <==> LinksRight(hdr, bs, m, i))
    else End(bs[r - 1]) <= bs[m].addr + cap
  }

  /** Block i was freed, the blocks from m to r - 1 are being merged, and the node at c takes them up. */
  ghost predicate Gathered(hdr: Headers, h: Headers, bs: seq<Block>, kept: set<nat>, m: nat, i: nat, r: nat, c: nat) {
    && m <= i < r <= |bs|
    && OnTheWay(hdr, bs, m, c, kept)
    && LinksLead(hdr, bs, m, i, kept)
    && SameOutside(hdr, h, c, bs[r - 1].addr)
    && Swallowed(hdr, h, c, bs[r - 1].addr, bs[i].addr)
    && c in hdr
    && h[c] == AllocNode(false, h[c].capacity, hdr[c].prev, AddrOr(bs, r), hdr[c].signature)
    && Reaches(hdr, bs, m, i, r, c, h[c].capacity)
    && (forall j :: m <= j < r && j != i ==> !bs[j].used)
  }

  lemma StartGathering(hdr: Headers, bs: seq<Block>, base: nat, kept: set<nat>, i: nat)
    requires Right(hdr, bs, base, kept) && i < |bs|
    ensures bs[i].addr in hdr
    ensures Gathered(hdr, Release(hdr, bs[i].addr), bs, kept, i, i, i + 1, bs[i].addr)
  {
    OneNode(hdr, bs, base, kept, i);
  }

  /** Where a link on the way back from block m leads: down, and no further than to block m - 1. */
  lemma WayBack(hdr: Headers, bs: seq<Block>, base: nat, kept: set<nat>, m: nat, c: nat)
    requires Right(hdr, bs, base, kept) && m < |bs| && OnTheWay(hdr, bs, m, c, kept)
    ensures c in hdr
    ensures var p := hdr[c].prev;
            if p == NULL then m == 0 && c == bs[0].addr
            else m > 0 && bs[m - 1].addr <= p < c <= bs[m].addr && (p == bs[m - 1].addr || Inside(bs[m - 1], p))
    ensures c != bs[m].addr ==> m > 0 && !bs[m - 1].used && Dead(hdr, c)
  {
    OneNode(hdr, bs, base, kept, m);
    RightIsTiled(hdr, bs, base, kept);
    AddressesDiffer(bs, base);
    if c != bs[m].addr {
      var k := OneKept(hdr, bs, base, kept, c);
      assert bs[m].addr == End(bs[m - 1]);
      assert k == m - 1;
    }
    hide Right;
  }

  /** Where the loop back comes to when it follows the link p from the way back of block m. */
  function Onto(bs: seq<Block>, m: nat, p: nat): nat
    requires m < |bs|
  {
    if m > 0 && p == bs[m - 1].addr then m - 1 else m
  }

  /** The link of c is one that no owner wrote. */
  ghost predicate Trusted(hdr: Headers, bs: seq<Block>, m: nat, c: nat, kept: set<nat>)
    requires m < |bs|
  {
    c in hdr && m > 0 && (hdr[c].prev == bs[m - 1].addr || hdr[c].prev in kept)
  }

  lemma StaysOnTheWay(hdr: Headers, bs: seq<Block>, base: nat, kept: set<nat>, m: nat, i: nat, c: nat)
    requires Right(hdr, bs, base, kept) && m <= i < |bs| && OnTheWay(hdr, bs, m, c, kept) && LinksLead(hdr, bs, m, i, kept)
    requires c in hdr && hdr[c].prev != NULL && Trusted(hdr, bs, m, c, kept)
    ensures OnTheWay(hdr, bs, Onto(bs, m, hdr[c].prev), hdr[c].prev, kept)
    ensures LinksLead(hdr, bs, Onto(bs, m, hdr[c].prev), i, kept)
    ensures forall a :: hdr[c].prev < a < c && a in hdr ==> hdr[a].signature != MAGIC
  {
    WayBack(hdr, bs, base, kept, m, c);
    OneNode(hdr, bs, base, kept, m);
    NoneBetween(hdr, bs, base, kept, m - 1);
    if c != bs[m].addr {
      LeadsOneMore(hdr, hdr[bs[m].addr].prev, c, kept);
    }
    hide Right;
  }

  lemma SwallowsBack(hdr: Headers, h: Headers, c: nat, hi: nat, f: nat)
    requires SameOutside(hdr, h, c, hi) && Swallowed(hdr, h, c, hi, f) && c <= f <= hi
    requires c in h && h[c].prev == hdr[c].prev && !h[c].inUse && (hdr[c].inUse ==> c == f)
    requires hdr[c].prev in h && hdr[c].prev < c
    requires forall a :: hdr[c].prev < a < c && a in hdr ==> hdr[a].signature != MAGIC
    ensures SameOutside(hdr, MergeBack(h, c), hdr[c].prev, hi) && Swallowed(hdr, MergeBack(h, c), hdr[c].prev, hi, f)
  {
  }

  lemma ReachesBack(hdr: Headers, bs: seq<Block>, base: nat, kept: set<nat>, m: nat, i: nat, r: nat, c: nat, cap: nat)
    requires Right(hdr, bs, base, kept) && m <= i < r <= |bs| && OnTheWay(hdr, bs, m, c, kept) && Reaches(hdr, bs, m, i, r, c, cap)
    requires c in hdr && hdr[c].prev in hdr && hdr[c].prev != NULL
    ensures Reaches(hdr, bs, Onto(bs, m, hdr[c].prev), i, r, hdr[c].prev, hdr[hdr[c].prev].capacity + HEADER + cap)
  {
    WayBack(hdr, bs, base, kept, m, c);
    var p := hdr[c].prev;
    RightIsTiled(hdr, bs, base, kept);
    assert bs[m].addr == End(bs[m - 1]);
    AddressesDiffer(bs, base);
    OneNode(hdr, bs, base, kept, m - 1);
    OneNode(hdr, bs, base, kept, m);
    hide Right;
    if p == bs[m - 1].addr {
      LinksRightBack(hdr, bs, m, i);
    }
  }

  lemma LinksRightBack(hdr: Headers, bs: seq<Block>, m: nat, i: nat)
    requires 0 < m <= i < |bs|
    ensures LinksRight(hdr, bs, m - 1, i) <==> PrevOk(hdr, bs, m) && LinksRight(hdr, bs, m, i)
  {
  }

  lemma AroundNode(hdr: Headers, h: Headers, bs: seq<Block>, base: nat, kept: set<nat>, m: nat, i: nat, r: nat, c: nat)
    requires Right(hdr, bs, base, kept) && Gathered(hdr, h, bs, kept, m, i, r, c)
    ensures m <= i < r <= |bs| && c in h && h.Keys == hdr.Keys && h[c].prev == hdr[c].prev
    ensures c <= bs[i].addr <= bs[r - 1].addr && (hdr[c].inUse ==> c == bs[i].addr)
    ensures var p := hdr[c].prev;
            if p == NULL then m == 0 && c == bs[0].addr
            else m > 0 && bs[m - 1].addr <= p < c && (p in hdr ==> h[p] == hdr[p])
    ensures m > 0 ==> NodeOk(hdr, bs, m - 1)
  {
    WayBack(hdr, bs, base, kept, m, c);
    OneNode(hdr, bs, base, kept, m);
    if m > 0 { OneNode(hdr, bs, base, kept, m - 1); }
    RightIsTiled(hdr, bs, base, kept);
    AddressesDiffer(bs, base);
    hide Right, Reaches, Swallowed;
  }

  lemma FreeBehind(hdr: Headers, bs: seq<Block>, m: nat, p: nat)
    requires m < |bs| && p in hdr && !hdr[p].inUse && (m > 0 ==> NodeOk(hdr, bs, m - 1))
    ensures m > 0 && p == bs[m - 1].addr ==> !bs[m - 1].used
  {
  }

  /** One round of the loop back, along a link that no owner wrote. */
  lemma BackStep(hdr: Headers, h: Headers, bs: seq<Block>, base: nat, kept: set<nat>, m: nat, i: nat, r: nat, c: nat)
    requires Right(hdr, bs, base, kept) && Gathered(hdr, h, bs, kept, m, i, r, c) && FreeBefore(h, c)
    requires Trusted(hdr, bs, m, c, kept)
    ensures m <= i < r <= |bs| && h[c].prev == hdr[c].prev
    ensures Gathered(hdr, MergeBack(h, c), bs, kept, Onto(bs, m, h[c].prev), i, r, h[c].prev)
  {
    hide Right, OnTheWay, Reaches, SameOutside, Swallowed, LinksRight, LinksLead, Trusted, NodeOk;
    AroundNode(hdr, h, bs, base, kept, m, i, r, c);
    FreeBehind(hdr, bs, m, h[c].prev);
    StaysOnTheWay(hdr, bs, base, kept, m, i, c);
    SwallowsBack(hdr, h, c, bs[r - 1].addr, bs[i].addr);
    ReachesBack(hdr, bs, base, kept, m, i, r, c, h[c].capacity);
  }

  /** One round of the loop forth. */
  lemma ForthStep(hdr: Headers, h: Headers, bs: seq<Block>, base: nat, kept: set<nat>, m: nat, i: nat, r: nat, c: nat)
    requires Right(hdr, bs, base, kept) && Gathered(hdr, h, bs, kept, m, i, r, c) && r < |bs| && !bs[r].used
    ensures FreeAfter(h, c, Top(bs, base))
    ensures Gathered(hdr, MergeForth(h, c), bs, kept, m, i, r + 1, c)
  {
    hide Right, OnTheWay, SameOutside, Swallowed, LinksRight, LinksLead;
    AroundNode(hdr, h, bs, base, kept, m, i, r, c);
    AfterNode(hdr, h, bs, base, kept, m, i, r, c);
    NoneBetween(hdr, bs, base, kept, r - 1);
    SwallowsForth(hdr, h, c, bs[r - 1].addr, bs[i].addr);
  }

  lemma AfterNode(hdr: Headers, h: Headers, bs: seq<Block>, base: nat, kept: set<nat>, m: nat, i: nat, r: nat, c: nat)
    requires Right(hdr, bs, base, kept) && Gathered(hdr, h, bs, kept, m, i, r, c)
    ensures m <= i < r <= |bs| && c in h && h[c].next == AddrOr(bs, r)
    ensures r < |bs| ==> NULL < bs[r].addr && c < bs[r].addr < Top(bs, base) && bs[r].addr in h
    ensures r < |bs| ==> h[bs[r].addr] == hdr[bs[r].addr] && NodeOk(h, bs, r) && bs[r].addr == End(bs[r - 1])
    ensures r + 1 < |bs| ==> bs[r].addr < bs[r + 1].addr
  {
    RightIsTiled(hdr, bs, base, kept);
    AddressesDiffer(bs, base);
    AroundNode(hdr, h, bs, base, kept, m, i, r, c);
    if r < |bs| { OneNode(hdr, bs, base, kept, r); }
    hide Reaches, Swallowed, LinksRight, Right, LinksLead, OnTheWay;
  }

  lemma SwallowsForth(hdr: Headers, h: Headers, c: nat, hi: nat, f: nat)
    requires SameOutside(hdr, h, c, hi) && Swallowed(hdr, h, c, hi, f) && c <= f <= hi && c in h
    requires h[c].next in h && hi < h[c].next && !hdr[h[c].next].inUse
    requires forall a :: hi < a < h[c].next && a in hdr ==> hdr[a].signature != MAGIC
    ensures SameOutside(hdr, MergeForth(h, c), c, h[c].next) && Swallowed(hdr, MergeForth(h, c), c, h[c].next, f)
  {
  }

  lemma NoneBetween(hdr: Headers, bs: seq<Block>, base: nat, kept: set<nat>, k: nat)
    requires Right(hdr, bs, base, kept) && k + 1 < |bs|
    ensures forall a :: bs[k].addr < a < bs[k + 1].addr && a in hdr ==> hdr[a].signature != MAGIC
  {
    forall a | bs[k].addr < a < bs[k + 1].addr && a in hdr ensures hdr[a].signature != MAGIC {
      NothingBetween(bs, base, k, a);
    }
  }

  // ---------- the loops ----------

  /** Where the way back from block m is good, the link of c says free and is one that no owner wrote. */
  lemma GoesOn(hdr: Headers, h: Headers, bs: seq<Block>, base: nat, kept: set<nat>, m: nat, i: nat, r: nat, c: nat)
    requires Right(hdr, bs, base, kept) && Gathered(hdr, h, bs, kept, m, i, r, c)
    requires m > 0 && !bs[m - 1].used && BackOk(hdr, bs, m, kept)
    ensures FreeBefore(h, c) && Trusted(hdr, bs, m, c, kept)
  {
    AroundNode(hdr, h, bs, base, kept, m, i, r, c);
    WayBack(hdr, bs, base, kept, m, c);
    if c != bs[m].addr {
      LeadsFrom(hdr, hdr[bs[m].addr].prev, c, bs[m - 1].addr, kept);
    }
    var p := hdr[c].prev;
    if p != bs[m - 1].addr {
      var k := OneKept(hdr, bs, base, kept, p);
    }
    hide Right, Reaches, SameOutside, Swallowed, LinksRight, LinksLead;
  }

  /** While the links lead on, the loop back comes from the way back of block m to block t. */
  lemma {:induction false} ReachBlock(hdr: Headers, h: Headers, bs: seq<Block>, base: nat, kept: set<nat>, m: nat, i: nat, c: nat, t: nat)
    returns (h': Headers)
    requires Right(hdr, bs, base, kept) && Gathered(hdr, h, bs, kept, m, i, i + 1, c)
    requires t <= m && (m == t ==> c == bs[t].addr) && LinksLead(hdr, bs, t, i, kept)
    requires forall j :: t <= j < i ==> !bs[j].used
    ensures i < |bs| && LoopBack(h, c) == LoopBack(h', bs[t].addr)
    ensures Gathered(hdr, h', bs, kept, t, i, i + 1, bs[t].addr)
    decreases c
  {
    AroundNode(hdr, h, bs, base, kept, m, i, i + 1, c);
    if m == t {
      h' := h;
    } else {
      assert BackOk(hdr, bs, m, kept);
      hide Right, Gathered, MergeBack, BackOk, LinksLead;
      GoesOn(hdr, h, bs, base, kept, m, i, i + 1, c);
      BackStep(hdr, h, bs, base, kept, m, i, i + 1, c);
      assert Onto(bs, m, h[c].prev) == t ==> h[c].prev == bs[t].addr;
      h' := ReachBlock(hdr, MergeBack(h, c), bs, base, kept, Onto(bs, m, h[c].prev), i, h[c].prev, t);
    }
  }

  /** Whatever an owner wrote says that it is in use. */
  ghost predicate Blocked(hdr: Headers, bs: seq<Block>, kept: set<nat>) {
    forall a :: a in hdr && !hdr[a].inUse ==> IsAddress(bs, a) || a in kept
  }

  /** Then a link that says free is one that no owner wrote. */
  lemma BlockedIsTrusted(hdr: Headers, h: Headers, bs: seq<Block>, base: nat, kept: set<nat>, m: nat, i: nat, r: nat, c: nat)
    requires Right(hdr, bs, base, kept) && Blocked(hdr, bs, kept) && Gathered(hdr, h, bs, kept, m, i, r, c) && FreeBefore(h, c)
    ensures m < |bs| && Trusted(hdr, bs, m, c, kept)
  {
    AroundNode(hdr, h, bs, base, kept, m, i, r, c);
    WayBack(hdr, bs, base, kept, m, c);
    var p := hdr[c].prev;
    if p != bs[m - 1].addr && p !in kept {
      InsideOne(bs, base, m - 1, p);
    }
  }

  /** The way back from block t does not lead to block t - 1. */
  lemma NotThere(hdr: Headers, bs: seq<Block>, t: nat, c: nat, kept: set<nat>)
    requires t < |bs| && !BackOk(hdr, bs, t, kept) && bs[t].addr in hdr
    requires OnTheWay(hdr, bs, t, c, kept) && c in hdr && (c != bs[t].addr ==> hdr[c].prev < c)
    ensures t > 0 && hdr[c].prev != bs[t - 1].addr
  {
    if c != bs[t].addr {
      LeadsOneMore(hdr, hdr[bs[t].addr].prev, c, kept);
    }
  }

  /** Where the links do not lead on, the loop back ends before it comes to block t - 1. */
  lemma {:induction false} Stuck(hdr: Headers, h: Headers, bs: seq<Block>, base: nat, kept: set<nat>, t: nat, i: nat, c: nat)
    requires Right(hdr, bs, base, kept) && Blocked(hdr, bs, kept) && Gathered(hdr, h, bs, kept, t, i, i + 1, c)
    requires t < |bs| && !BackOk(hdr, bs, t, kept)
    ensures var (h', d) := LoopBack(h, c);
            && Gathered(hdr, h', bs, kept, t, i, i + 1, d) && t > 0 && d in hdr && hdr[d].prev != bs[t - 1].addr
    decreases c
  {
    hide Right, Gathered, MergeBack, BackOk, Blocked, Onto;
    AtStuck(hdr, h, bs, base, kept, t, i, c);
    if FreeBefore(h, c) {
      BlockedIsTrusted(hdr, h, bs, base, kept, t, i, i + 1, c);
      BackStep(hdr, h, bs, base, kept, t, i, i + 1, c);
      Stuck(hdr, MergeBack(h, c), bs, base, kept, t, i, h[c].prev);
    }
  }

  lemma AtStuck(hdr: Headers, h: Headers, bs: seq<Block>, base: nat, kept: set<nat>, t: nat, i: nat, c: nat)
    requires Right(hdr, bs, base, kept) && Gathered(hdr, h, bs, kept, t, i, i + 1, c)
    requires t < |bs| && !BackOk(hdr, bs, t, kept)
    ensures t > 0 && c in hdr && c in h && h[c].prev == hdr[c].prev != bs[t - 1].addr && Onto(bs, t, h[c].prev) == t
  {
    AroundNode(hdr, h, bs, base, kept, t, i, i + 1, c);
    WayBack(hdr, bs, base, kept, t, c);
    OneNode(hdr, bs, base, kept, t);
    NotThere(hdr, bs, t, c, kept);
  }

  lemma {:induction false} RightEndThrough(bs: seq<Block>, i: nat, r: nat)
    requires i <= r <= |bs| && forall j :: i <= j < r ==> !bs[j].used
    ensures RightEnd(bs, i) == RightEnd(bs, r)
    decreases r - i
  {
    if i < r { RightEndThrough(bs, i + 1, r); }
  }

  /** Where the loop forth stops, the run of free blocks ends. */
  lemma ForthStops(hdr: Headers, h: Headers, bs: seq<Block>, base: nat, kept: set<nat>, m: nat, i: nat, r: nat, c: nat)
    requires Right(hdr, bs, base, kept) && Gathered(hdr, h, bs, kept, m, i, r, c)
    ensures i < r <= |bs| && RightEnd(bs, i + 1) == RightEnd(bs, r)
    ensures FreeAfter(h, c, Top(bs, base)) <==> r < |bs| && !bs[r].used
  {
    AfterNode(hdr, h, bs, base, kept, m, i, r, c);
    RightEndThrough(bs, i + 1, r);
    hide Right, OnTheWay, Reaches, SameOutside, Swallowed, LinksRight, LinksLead;
  }

  lemma {:induction false} LoopForthGathers(hdr: Headers, h: Headers, bs: seq<Block>, base: nat, kept: set<nat>, m: nat, i: nat, r: nat, c: nat)
    requires Right(hdr, bs, base, kept) && Gathered(hdr, h, bs, kept, m, i, r, c)
    ensures i < |bs| && Gathered(hdr, LoopForth(h, c, Top(bs, base)), bs, kept, m, i, RightEnd(bs, i + 1), c)
    decreases |bs| - r
  {
    hide Right, Gathered, MergeForth, RightEnd;
    ForthStops(hdr, h, bs, base, kept, m, i, r, c);
    RightEndStops(bs, r);
    if FreeAfter(h, c, Top(bs, base)) {
      ForthStep(hdr, h, bs, base, kept, m, i, r, c);
      LoopForthGathers(hdr, MergeForth(h, c), bs, base, kept, m, i, r + 1, c);
    }
  }

  lemma RightEndStops(bs: seq<Block>, r: nat)
    requires r <= |bs|
    ensures !(r < |bs| && !bs[r].used) ==> RightEnd(bs, r) == r
  {
  }

  // ---------- the end of a free ----------

  /** The list after the run l..r became one free block. */
  function AfterRun(bs: seq<Block>, l: nat, r: nat): seq<Block>
    requires l < r < |bs| && bs[l].addr + HEADER <= End(bs[r - 1])
  {
    bs[..l] + [OneFree(bs, l, r)] + bs[r..]
  }

  /** Block k of AfterRun was block Before(l, r, k). */
  function Before(l: nat, r: nat, k: nat): int {
    if k <= l then k else k + r - l - 1
  }

  lemma AfterRunAt(bs: seq<Block>, l: nat, r: nat, k: nat)
    requires l < r < |bs| && bs[l].addr + HEADER <= End(bs[r - 1]) && k < |AfterRun(bs, l, r)|
    ensures var a, b := AfterRun(bs, l, r), Before(l, r, k);
            && b < |bs| && a[k].addr == bs[b].addr
            && a[k] == (if k == l then OneFree(bs, l, r) else bs[b])
            && AddrOr(a, k + 1) == (if k == l then bs[r].addr else AddrOr(bs, b + 1))
            && PrevOf(a, k) == (if k == l + 1 then bs[l].addr else PrevOf(bs, b))
  {
  }

  /** Everything about a free at its end that the rest needs: blocks l to r - 1 are gathered in the
      node of block l. */
  ghost predicate Done(hdr: Headers, h: Headers, bs: seq<Block>, base: nat, kept: set<nat>, l: nat, i: nat, r: nat) {
    l < |bs| && Right(hdr, bs, base, kept) && Gathered(hdr, h, bs, kept, l, i, r, bs[l].addr)
  }

  /** The dead headers that are kept after that. */
  ghost function KeptOfRun(bs: seq<Block>, kept: set<nat>, l: nat, r: nat): set<nat>
    requires r <= |bs|
  {
    kept + set k | l < k < r :: bs[k].addr
  }

  /** A block outside the run keeps its header. */
  lemma OutsideStays(hdr: Headers, h: Headers, bs: seq<Block>, base: nat, kept: set<nat>, l: nat, i: nat, r: nat, k: nat)
    requires Done(hdr, h, bs, base, kept, l, i, r) && k < |bs| && (k < l || r <= k)
    ensures bs[k].addr in h && bs[k].addr in hdr && h[bs[k].addr] == hdr[bs[k].addr]
    ensures NodeOk(hdr, bs, k) && LinkNear(hdr, bs, k)
  {
    OneNode(hdr, bs, base, kept, k);
    RightIsTiled(hdr, bs, base, kept);
    AddressesDiffer(bs, base);
    hide Reaches, Swallowed, LinksRight, Right, LinksLead;
  }

  /** The node of block l, and where it lies. */
  lemma LastNode(hdr: Headers, h: Headers, bs: seq<Block>, base: nat, kept: set<nat>, l: nat, i: nat, r: nat)
    requires Done(hdr, h, bs, base, kept, l, i, r)
    ensures l <= i < r <= |bs| && bs[l].addr in h && bs[l].addr in hdr
    ensures h[bs[l].addr].next == AddrOr(bs, r) && h[bs[l].addr].prev == hdr[bs[l].addr].prev && LinkNear(hdr, bs, l)
    ensures NULL < bs[0].addr && Tiled(bs, base) && h.Keys == hdr.Keys
    ensures forall a :: a in h && h[a].signature == MAGIC && a != bs[l].addr && (r == |bs| || a < bs[l].addr) ==>
              exists k :: 0 <= k < l && bs[k].addr == a
  {
    RightIsTiled(hdr, bs, base, kept);
    AddressesDiffer(bs, base);
    AroundNode(hdr, h, bs, base, kept, l, i, r, bs[l].addr);
    OneNode(hdr, bs, base, kept, l);
    forall a | a in h && h[a].signature == MAGIC && a != bs[l].addr && (r == |bs| || a < bs[l].addr)
      ensures exists k :: 0 <= k < l && bs[k].addr == a
    {
      assert IsAddress(bs, a);
    }
    hide Reaches, LinksRight;
  }

  /** Nothing inside a used block is written before the end. */
  lemma GatheringUntouched(hdr: Headers, h: Headers, bs: seq<Block>, base: nat, kept: set<nat>, l: nat, i: nat, r: nat)
    requires Done(hdr, h, bs, base, kept, l, i, r)
    ensures Untouched(hdr, h, bs, i)
  {
    RightIsTiled(hdr, bs, base, kept);
    AddressesDiffer(bs, base);
    forall k, a | 0 <= k < |bs| && k != i && bs[k].used && Inside(bs[k], a)
      ensures (a in h <==> a in hdr) && (a in hdr ==> h[a] == hdr[a])
    {
      assert k < l || r <= k;
    }
  }

  lemma UntouchedWithout(hdr: Headers, h: Headers, e: Headers, bs: seq<Block>, base: nat, i: nat)
    requires Tiled(bs, base) && Untouched(hdr, h, bs, i)
    requires e.Keys == h.Keys && forall a :: a in h && !IsAddress(bs, a) ==> e[a] == h[a]
    ensures Untouched(hdr, e, bs, i)
  {
    forall k, a | 0 <= k < |bs| && k != i && bs[k].used && Inside(bs[k], a)
      ensures (a in e <==> a in hdr) && (a in hdr ==> e[a] == hdr[a])
    {
      InsideOne(bs, base, k, a);
    }
  }

  // a free that comes to the end of the list

  lemma TrimmedNode(hdr: Headers, h: Headers, bs: seq<Block>, base: nat, kept: set<nat>, l: nat, i: nat, k: nat)
    requires Done(hdr, h, bs, base, kept, l, i, |bs|) && PrevOk(hdr, bs, l) && k < l
    ensures bs[l].addr in h && (h[bs[l].addr].prev != NULL ==> h[bs[l].addr].prev in h && h[bs[l].addr].prev != bs[l].addr)
    ensures var t, f := Trim(h, bs[l].addr), bs[..l];
            NodeOk(t, f, k) && LinkNear(t, f, k) && (PrevOk(hdr, bs, k) ==> PrevOk(t, f, k))
  {
    hide Done, Tiled;
    LastNode(hdr, h, bs, base, kept, l, i, |bs|);
    OutsideStays(hdr, h, bs, base, kept, l, i, |bs|, k);
    OutsideStays(hdr, h, bs, base, kept, l, i, |bs|, l - 1);
    AddressesDiffer(bs, base);
  }

  /** A kept header before the run stays as it is. */
  lemma KeptBefore(hdr: Headers, h: Headers, bs: seq<Block>, base: nat, kept: set<nat>, l: nat, i: nat, r: nat, k: nat, a: nat)
    requires Done(hdr, h, bs, base, kept, l, i, r) && k < |bs| && KeptAt(hdr, bs, k, a) && (k < l || r <= k)
    ensures KeptAt(h, bs, k, a)
  {
    RightIsTiled(hdr, bs, base, kept);
    AddressesDiffer(bs, base);
    hide Reaches, Swallowed, LinksRight, Right, LinksLead;
  }

  lemma TrimKeeps(hdr: Headers, h: Headers, bs: seq<Block>, base: nat, kept: set<nat>, l: nat, i: nat)
    requires Done(hdr, h, bs, base, kept, l, i, |bs|) && PrevOk(hdr, bs, l)
    requires bs[l].addr in h && (h[bs[l].addr].prev != NULL ==> h[bs[l].addr].prev in h && h[bs[l].addr].prev != bs[l].addr)
    ensures var t, f := Trim(h, bs[l].addr), bs[..l];
            KeptOk(t, f, Still(KeptOfRun(bs, kept, l, |bs|), f)) && Untouched(hdr, t, bs, i)
  {
    hide Gathered, Right, KeptOk, Untouched, KeptAt, Still, KeptOfRun, PrevOk;
    var t, f := Trim(h, bs[l].addr), bs[..l];
    LastNode(hdr, h, bs, base, kept, l, i, |bs|);
    TrimWrites(hdr, h, bs, base, kept, l, i);
    GatheringUntouched(hdr, h, bs, base, kept, l, i, |bs|);
    UntouchedWithout(hdr, h, t, bs, base, i);
    forall a | a in Still(KeptOfRun(bs, kept, l, |bs|), f) ensures exists k :: 0 <= k < |f| && KeptAt(t, f, k, a) {
      var k := StillBefore(bs, base, kept, l, a);
      var j := OneKept(hdr, bs, base, kept, a);
      SameKept(hdr, bs, base, j, k, a);
      KeptBefore(hdr, h, bs, base, kept, l, i, |bs|, k, a);
      KeptTrimmed(h, t, bs, base, l, k, a);
    }
    AllKept(t, f, Still(KeptOfRun(bs, kept, l, |bs|), f));
  }

  lemma AllKept(t: Headers, f: seq<Block>, kept: set<nat>)
    requires forall a :: a in kept ==> exists k :: 0 <= k < |f| && KeptAt(t, f, k, a)
    ensures KeptOk(t, f, kept)
  {
  }

  /** The end of a free writes in headers of blocks only. */
  lemma TrimWrites(hdr: Headers, h: Headers, bs: seq<Block>, base: nat, kept: set<nat>, l: nat, i: nat)
    requires Done(hdr, h, bs, base, kept, l, i, |bs|) && PrevOk(hdr, bs, l)
    requires bs[l].addr in h && (h[bs[l].addr].prev != NULL ==> h[bs[l].addr].prev in h && h[bs[l].addr].prev != bs[l].addr)
    ensures var t := Trim(h, bs[l].addr); t.Keys == h.Keys && forall a :: a in h && !IsAddress(bs, a) ==> t[a] == h[a]
  {
    LastNode(hdr, h, bs, base, kept, l, i, |bs|);
    if l > 0 { assert IsAddress(bs, bs[l - 1].addr); }
    assert IsAddress(bs, bs[l].addr);
    hide Done;
  }

  lemma StillBefore(bs: seq<Block>, base: nat, kept: set<nat>, l: nat, a: nat) returns (k: nat)
    requires l < |bs| && Tiled(bs, base) && a in Still(KeptOfRun(bs, kept, l, |bs|), bs[..l])
    ensures k < l && Inside(bs[k], a) && a in kept
  {
    var f := bs[..l];
    k :| 0 <= k < |f| && !f[k].used && Inside(f[k], a);
    assert f[k] == bs[k];
    InsideOne(bs, base, k, a);
    if j :| l < j < |bs| && bs[j].addr == a { assert IsAddress(bs, a); }
  }

  lemma SameKept(hdr: Headers, bs: seq<Block>, base: nat, j: nat, k: nat, a: nat)
    requires Tiled(bs, base) && j < |bs| && k < |bs| && KeptAt(hdr, bs, j, a) && Inside(bs[k], a)
    ensures j == k
  {
    InsideOne(bs, base, k, a);
  }

  lemma KeptTrimmed(h: Headers, t: Headers, bs: seq<Block>, base: nat, l: nat, k: nat, a: nat)
    requires k < l < |bs| && Tiled(bs, base) && KeptAt(h, bs, k, a)
    requires t.Keys == h.Keys && forall a :: a in h && !IsAddress(bs, a) ==> t[a] == h[a]
    ensures KeptAt(t, bs[..l], k, a)
  {
    InsideOne(bs, base, k, a);
  }

  /** A free that comes to the end of the list is right if the run's link back is. */
  lemma TrimIsRight(hdr: Headers, h: Headers, bs: seq<Block>, base: nat, kept: set<nat>, l: nat, i: nat)
    requires Done(hdr, h, bs, base, kept, l, i, |bs|) && PrevOk(hdr, bs, l)
    ensures bs[l].addr in h && h[bs[l].addr].next == NULL
    ensures h[bs[l].addr].prev != NULL ==> h[bs[l].addr].prev in h && h[bs[l].addr].prev != bs[l].addr
    ensures var t, f := Trim(h, bs[l].addr), bs[..l];
            && Right(t, f, base, Still(KeptOfRun(bs, kept, l, |bs|), f)) && Untouched(hdr, t, bs, i)
            && (Mirrored(hdr, bs) ==> Mirrored(t, f))
  {
    hide Done, Tiled, NodeOk, LinkNear, PrevOk, Still, KeptOk, Untouched, Trim, Linked, Clean, Near;
    TrimFits(hdr, h, bs, base, kept, l, i);
    TiledSplit(bs, base, l);
    TrimKeeps(hdr, h, bs, base, kept, l, i);
    TrimIsClean(hdr, h, bs, base, kept, l, i);
    TrimIsLinked(hdr, h, bs, base, kept, l, i);
  }

  lemma TrimFits(hdr: Headers, h: Headers, bs: seq<Block>, base: nat, kept: set<nat>, l: nat, i: nat)
    requires Done(hdr, h, bs, base, kept, l, i, |bs|) && PrevOk(hdr, bs, l)
    ensures l < |bs| && HEADER <= base && Tiled(bs, base) && bs[l].addr in h && h[bs[l].addr].next == NULL
    ensures h[bs[l].addr].prev != NULL ==> h[bs[l].addr].prev in h && h[bs[l].addr].prev != bs[l].addr
  {
    LastNode(hdr, h, bs, base, kept, l, i, |bs|);
    if l > 0 { OutsideStays(hdr, h, bs, base, kept, l, i, |bs|, l - 1); }
    AddressesDiffer(bs, base);
    hide Gathered;
  }

  lemma TrimIsClean(hdr: Headers, h: Headers, bs: seq<Block>, base: nat, kept: set<nat>, l: nat, i: nat)
    requires Done(hdr, h, bs, base, kept, l, i, |bs|) && PrevOk(hdr, bs, l)
    requires bs[l].addr in h && (h[bs[l].addr].prev != NULL ==> h[bs[l].addr].prev in h && h[bs[l].addr].prev != bs[l].addr)
    ensures Clean(Trim(h, bs[l].addr), bs[..l])
  {
    LastNode(hdr, h, bs, base, kept, l, i, |bs|);
    var t, f := Trim(h, bs[l].addr), bs[..l];
    hide Gathered;
    forall a | a in t && t[a].signature == MAGIC ensures IsAddress(f, a) {
      var k :| 0 <= k < l && bs[k].addr == a;
      assert f[k].addr == a;
    }
  }

  lemma TrimIsLinked(hdr: Headers, h: Headers, bs: seq<Block>, base: nat, kept: set<nat>, l: nat, i: nat)
    requires l < |bs| && Done(hdr, h, bs, base, kept, l, i, |bs|) && PrevOk(hdr, bs, l)
    requires bs[l].addr in h && (h[bs[l].addr].prev != NULL ==> h[bs[l].addr].prev in h && h[bs[l].addr].prev != bs[l].addr)
    ensures var t, f := Trim(h, bs[l].addr), bs[..l];
            Linked(t, f) && Near(t, f) && (Mirrored(hdr, bs) ==> Mirrored(t, f))
  {
    hide Done, NodeOk, LinkNear, PrevOk, Trim;
    var t, f := Trim(h, bs[l].addr), bs[..l];
    forall k | 0 <= k < l ensures NodeOk(t, f, k) && LinkNear(t, f, k) && (PrevOk(hdr, bs, k) ==> PrevOk(t, f, k)) {
      TrimmedNode(hdr, h, bs, base, kept, l, i, k);
    }
  }

  /** If it is not, the block before the run still leads into it. */
  lemma TrimIsWrong(hdr: Headers, h: Headers, bs: seq<Block>, base: nat, kept: set<nat>, l: nat, i: nat, relink: bool, kept': set<nat>)
    requires Done(hdr, h, bs, base, kept, l, i, |bs|) && !PrevOk(hdr, bs, l)
    ensures !Right(Finish(h, bs[l].addr, relink), bs[..l], base, kept')
  {
    LastNode(hdr, h, bs, base, kept, l, i, |bs|);
    OutsideStays(hdr, h, bs, base, kept, l, i, |bs|, l - 1);
    AddressesDiffer(bs, base);
    var e, f := Finish(h, bs[l].addr, relink), bs[..l];
    assert e[bs[l - 1].addr].next == bs[l].addr;
    assert !NodeOk(e, f, l - 1);
  }

  // a free with blocks behind the run

  lemma AfterRunTiled(bs: seq<Block>, base: nat, l: nat, r: nat)
    requires Tiled(bs, base) && l < r < |bs|
    ensures bs[l].addr + HEADER <= End(bs[r - 1]) && Tiled(AfterRun(bs, l, r), base)
  {
    RunHasRoom(bs, base, l, r);
    TiledSplit(bs, base, l);
    TiledSplit(bs, base, r);
    hide Tiled;
    TiledJoin([OneFree(bs, l, r)], bs[r..], bs[l].addr);
    TiledJoin(bs[..l], [OneFree(bs, l, r)] + bs[r..], base);
    assert AfterRun(bs, l, r) == bs[..l] + ([OneFree(bs, l, r)] + bs[r..]);
  }

  /** The headers after the repair, if there is one. */
  function Mended(h: Headers, n: nat, c: nat, relink: bool): Headers
    requires n in h
  {
    if relink then h[n := h[n].(prev := c)] else h
  }

  /** The node that took up the run reaches just to its end if the links back in it were right, and
      too far if not. */
  lemma RightNode(hdr: Headers, h: Headers, bs: seq<Block>, base: nat, kept: set<nat>, l: nat, i: nat, r: nat)
    requires Done(hdr, h, bs, base, kept, l, i, r)
    ensures l <= i < r <= |bs| && bs[l].addr + HEADER <= End(bs[r - 1]) && bs[l].addr in h && bs[l].addr in hdr
    ensures if LinksRight(hdr, bs, l, i)
            then h[bs[l].addr] == AllocNode(false, OneFree(bs, l, r).cap, hdr[bs[l].addr].prev, AddrOr(bs, r), MAGIC)
            else h[bs[l].addr].capacity != OneFree(bs, l, r).cap
  {
    LastNode(hdr, h, bs, base, kept, l, i, r);
    RunHasRoom(bs, base, l, r);
    OneNode(hdr, bs, base, kept, l);
    hide Right, SameOutside, Tiled, Swallowed, LinksLead, OnTheWay;
  }

  /** The nodes of the merged list, if the links read were right: those outside the run, ... */
  lemma NodeOutside(hdr: Headers, h: Headers, bs: seq<Block>, base: nat, kept: set<nat>, l: nat, i: nat, r: nat, relink: bool, k: nat)
    requires l < r < |bs| && Done(hdr, h, bs, base, kept, l, i, r) && bs[l].addr + HEADER <= End(bs[r - 1])
    requires k < |AfterRun(bs, l, r)| && k != l && k != l + 1 && bs[r].addr in h
    ensures var e, a := Mended(h, bs[r].addr, bs[l].addr, relink), AfterRun(bs, l, r);
            NodeOk(e, a, k) && LinkNear(e, a, k) && (PrevOk(hdr, bs, Before(l, r, k)) ==> PrevOk(e, a, k))
  {
    hide Done, Mended, NodeOk, LinkNear, PrevOk, AfterRun;
    var b := Before(l, r, k);
    AfterRunAt(bs, l, r, k);
    if k > 0 { AfterRunAt(bs, l, r, k - 1); }
    OutsideMended(hdr, h, bs, base, kept, l, i, r, relink, b);
    KeptNode(hdr, bs, b, Mended(h, bs[r].addr, bs[l].addr, relink), AfterRun(bs, l, r), k);
  }

  lemma OutsideMended(hdr: Headers, h: Headers, bs: seq<Block>, base: nat, kept: set<nat>, l: nat, i: nat, r: nat, relink: bool, b: nat)
    requires l < r < |bs| && Done(hdr, h, bs, base, kept, l, i, r) && b < |bs| && (b < l || r < b) && bs[r].addr in h
    ensures var e := Mended(h, bs[r].addr, bs[l].addr, relink);
            NodeOk(hdr, bs, b) && LinkNear(hdr, bs, b) && bs[b].addr in e && bs[b].addr in hdr && e[bs[b].addr] == hdr[bs[b].addr]
  {
    OutsideStays(hdr, h, bs, base, kept, l, i, r, b);
    LastNode(hdr, h, bs, base, kept, l, i, r);
    AddressesDiffer(bs, base);
    hide Done, NodeOk, LinkNear, Tiled;
  }

  lemma KeptNode(hdr: Headers, bs: seq<Block>, b: nat, e: Headers, a: seq<Block>, k: nat)
    requires b < |bs| && k < |a| && NodeOk(hdr, bs, b) && LinkNear(hdr, bs, b)
    requires bs[b].addr in e && bs[b].addr in hdr && e[bs[b].addr] == hdr[bs[b].addr]
    requires a[k] == bs[b] && AddrOr(a, k + 1) == AddrOr(bs, b + 1) && PrevOf(a, k) == PrevOf(bs, b) && (k == 0 <==> b == 0)
    requires k > 0 ==> a[k - 1] == bs[b - 1]
    ensures NodeOk(e, a, k) && LinkNear(e, a, k) && (PrevOk(hdr, bs, b) ==> PrevOk(e, a, k))
  {
  }

  /** ... the one that took up the run, ... */
  lemma NodeOfRun(hdr: Headers, h: Headers, bs: seq<Block>, base: nat, l: nat, r: nat, relink: bool)
    requires Tiled(bs, base) && l < r < |bs| && bs[l].addr + HEADER <= End(bs[r - 1]) && bs[r].addr in h && bs[l].addr in h
    requires LinkNear(hdr, bs, l)
    requires h[bs[l].addr] == AllocNode(false, OneFree(bs, l, r).cap, hdr[bs[l].addr].prev, AddrOr(bs, r), MAGIC)
    ensures var e, a := Mended(h, bs[r].addr, bs[l].addr, relink), AfterRun(bs, l, r);
            NodeOk(e, a, l) && LinkNear(e, a, l) && (PrevOk(hdr, bs, l) ==> PrevOk(e, a, l))
  {
    AfterRunAt(bs, l, r, l);
    if l > 0 { AfterRunAt(bs, l, r, l - 1); }
    AddressesDiffer(bs, base);
  }

  /** ... and the one behind it, whose link back is right if it was repaired or nothing was merged. */
  lemma NodeBehind(hdr: Headers, h: Headers, bs: seq<Block>, base: nat, kept: set<nat>, l: nat, i: nat, r: nat, relink: bool)
    requires l < r < |bs| && Done(hdr, h, bs, base, kept, l, i, r) && bs[l].addr + HEADER <= End(bs[r - 1])
    requires bs[r].addr in h
    ensures var e, a := Mended(h, bs[r].addr, bs[l].addr, relink), AfterRun(bs, l, r);
            && l + 1 < |a| && NodeOk(e, a, l + 1) && LinkNear(e, a, l + 1)
            && (PrevOk(hdr, bs, r) ==> (PrevOk(e, a, l + 1) <==> relink || r == l + 1))
  {
    AfterRunAt(bs, l, r, l);
    AfterRunAt(bs, l, r, l + 1);
    OutsideStays(hdr, h, bs, base, kept, l, i, r, r);
    LastNode(hdr, h, bs, base, kept, l, i, r);
    AddressesDiffer(bs, base);
    hide Done, Tiled, AfterRun;
    if !relink {
      assert Mended(h, bs[r].addr, bs[l].addr, relink) == h;
    }
  }

  lemma MergedLinks(hdr: Headers, h: Headers, bs: seq<Block>, base: nat, kept: set<nat>, l: nat, i: nat, r: nat, relink: bool)
    requires l < r < |bs| && Done(hdr, h, bs, base, kept, l, i, r) && bs[l].addr + HEADER <= End(bs[r - 1])
    requires bs[r].addr in h && LinksRight(hdr, bs, l, i)
    ensures var e, a := Mended(h, bs[r].addr, bs[l].addr, relink), AfterRun(bs, l, r);
            && Linked(e, a) && Near(e, a)
            && (Mirrored(hdr, bs) ==> (Mirrored(e, a) <==> relink || r == l + 1))
  {
    var e, a := Mended(h, bs[r].addr, bs[l].addr, relink), AfterRun(bs, l, r);
    hide Done, Tiled, NodeOk, LinkNear, PrevOk, Linked, Clean, Near, Mended, LinksRight;
    LastNode(hdr, h, bs, base, kept, l, i, r);
    RightNode(hdr, h, bs, base, kept, l, i, r);
    NodeOfRun(hdr, h, bs, base, l, r, relink);
    NodeBehind(hdr, h, bs, base, kept, l, i, r, relink);
    forall k | 0 <= k < |a|
      ensures NodeOk(e, a, k) && LinkNear(e, a, k) && (k != l + 1 && Mirrored(hdr, bs) ==> PrevOk(e, a, k))
    {
      if k != l && k != l + 1 {
        NodeOutside(hdr, h, bs, base, kept, l, i, r, relink, k);
        AfterRunAt(bs, l, r, k);
      }
    }
    NodesMake(e, a);
  }

  lemma NodesMake(e: Headers, a: seq<Block>)
    requires forall k :: 0 <= k < |a| ==> NodeOk(e, a, k) && LinkNear(e, a, k)
    ensures Linked(e, a) && Near(e, a)
  {
  }

  lemma MergedIsClean(hdr: Headers, h: Headers, bs: seq<Block>, base: nat, kept: set<nat>, l: nat, i: nat, r: nat, relink: bool)
    requires l < r < |bs| && Done(hdr, h, bs, base, kept, l, i, r) && bs[l].addr + HEADER <= End(bs[r - 1]) && bs[r].addr in h
    ensures Clean(Mended(h, bs[r].addr, bs[l].addr, relink), AfterRun(bs, l, r))
  {
    var e, a := Mended(h, bs[r].addr, bs[l].addr, relink), AfterRun(bs, l, r);
    forall x | x in e && e[x].signature == MAGIC ensures IsAddress(a, x) {
      MagicStays(hdr, h, bs, base, kept, l, i, r, x);
      var k :| 0 <= k < |bs| && (k <= l || r <= k) && bs[k].addr == x;
      assert a[if k <= l then k else k - r + l + 1].addr == x;
    }
  }

  lemma MagicStays(hdr: Headers, h: Headers, bs: seq<Block>, base: nat, kept: set<nat>, l: nat, i: nat, r: nat, x: nat)
    requires l < r < |bs| && Done(hdr, h, bs, base, kept, l, i, r) && x in h && h[x].signature == MAGIC
    ensures exists k :: 0 <= k < |bs| && (k <= l || r <= k) && bs[k].addr == x
  {
    RightIsTiled(hdr, bs, base, kept);
    AddressesDiffer(bs, base);
    if x != bs[l].addr {
      assert x < bs[l].addr || bs[r - 1].addr < x;
      assert IsAddress(bs, x);
    }
    hide Reaches, LinksRight, LinksLead;
  }

  /** A header of the run that dies is kept in the merged block, ... */
  lemma DyingIsKept(hdr: Headers, h: Headers, bs: seq<Block>, base: nat, kept: set<nat>, l: nat, i: nat, r: nat, k: nat)
    requires l < k < r <= |bs| && Done(hdr, h, bs, base, kept, l, i, r) && bs[l].addr + HEADER <= End(bs[r - 1])
    ensures KeptIn(h, OneFree(bs, l, r), bs[k].addr)
  {
    RightIsTiled(hdr, bs, base, kept);
    AddressesDiffer(bs, base);
    LastNode(hdr, h, bs, base, kept, l, i, r);
    OneNode(hdr, bs, base, kept, k);
    hide Reaches, LinksRight, LinksLead, Right, Tiled;
  }

  /** ... and so is one that was kept in the run. */
  lemma RunKeeps(hdr: Headers, h: Headers, bs: seq<Block>, base: nat, kept: set<nat>, l: nat, i: nat, r: nat, k: nat, a: nat)
    requires l <= k < r <= |bs| && Done(hdr, h, bs, base, kept, l, i, r) && bs[l].addr + HEADER <= End(bs[r - 1])
    requires KeptAt(hdr, bs, k, a)
    ensures KeptIn(h, OneFree(bs, l, r), a)
  {
    RightIsTiled(hdr, bs, base, kept);
    AddressesDiffer(bs, base);
    hide Reaches, LinksRight, LinksLead, Right, Tiled;
  }

  lemma MergedKeeps(hdr: Headers, h: Headers, bs: seq<Block>, base: nat, kept: set<nat>, l: nat, i: nat, r: nat, relink: bool)
    requires l < r < |bs| && Done(hdr, h, bs, base, kept, l, i, r) && bs[l].addr + HEADER <= End(bs[r - 1]) && bs[r].addr in h
    ensures var e, a := Mended(h, bs[r].addr, bs[l].addr, relink), AfterRun(bs, l, r);
            KeptOk(e, a, Still(KeptOfRun(bs, kept, l, r), a)) && Untouched(hdr, e, bs, i)
  {
    var e, f := Mended(h, bs[r].addr, bs[l].addr, relink), AfterRun(bs, l, r);
    LastNode(hdr, h, bs, base, kept, l, i, r);
    assert IsAddress(bs, bs[r].addr);
    GatheringUntouched(hdr, h, bs, base, kept, l, i, r);
    UntouchedWithout(hdr, h, e, bs, base, i);
    hide Untouched;
    forall a | a in Still(KeptOfRun(bs, kept, l, r), f) ensures exists k :: 0 <= k < |f| && KeptAt(e, f, k, a) {
      if a in kept {
        var k := OneKept(hdr, bs, base, kept, a);
        KeptAfter(hdr, h, bs, base, kept, l, i, r, relink, k, a);
      } else {
        var k :| l < k < r && bs[k].addr == a;
        DyingIsKept(hdr, h, bs, base, kept, l, i, r, k);
        RunAfter(h, bs, base, l, r, relink, a);
      }
    }
  }

  /** Where the merged block is, and that the repair writes nothing in it. */
  lemma RunAfter(h: Headers, bs: seq<Block>, base: nat, l: nat, r: nat, relink: bool, a: nat)
    requires l < r < |bs| && Tiled(bs, base) && bs[l].addr + HEADER <= End(bs[r - 1]) && bs[r].addr in h
    requires KeptIn(h, OneFree(bs, l, r), a)
    ensures l < |AfterRun(bs, l, r)| && KeptAt(Mended(h, bs[r].addr, bs[l].addr, relink), AfterRun(bs, l, r), l, a)
  {
    AfterRunAt(bs, l, r, l);
    assert bs[r].addr == End(bs[r - 1]);
  }

  lemma KeptAfter(hdr: Headers, h: Headers, bs: seq<Block>, base: nat, kept: set<nat>, l: nat, i: nat, r: nat, relink: bool, k: nat, a: nat)
    requires l < r < |bs| && Done(hdr, h, bs, base, kept, l, i, r) && bs[l].addr + HEADER <= End(bs[r - 1]) && bs[r].addr in h
    requires k < |bs| && KeptAt(hdr, bs, k, a)
    ensures var e, f := Mended(h, bs[r].addr, bs[l].addr, relink), AfterRun(bs, l, r);
            exists j :: 0 <= j < |f| && KeptAt(e, f, j, a)
  {
    LastNode(hdr, h, bs, base, kept, l, i, r);
    if l <= k < r {
      RunKeeps(hdr, h, bs, base, kept, l, i, r, k, a);
      RunAfter(h, bs, base, l, r, relink, a);
    } else {
      KeptBefore(hdr, h, bs, base, kept, l, i, r, k, a);
      var j := if k < l then k else k + l + 1 - r;
      AfterRunAt(bs, l, r, j);
      InsideOne(bs, base, k, a);
      assert IsAddress(bs, bs[r].addr);
      assert KeptAt(Mended(h, bs[r].addr, bs[l].addr, relink), AfterRun(bs, l, r), j, a);
    }
  }

  /** A free with blocks behind the run is right if the links back in the run are. */
  lemma MergedIsRight(hdr: Headers, h: Headers, bs: seq<Block>, base: nat, kept: set<nat>, l: nat, i: nat, r: nat, relink: bool)
    requires l < r < |bs| && Done(hdr, h, bs, base, kept, l, i, r) && LinksRight(hdr, bs, l, i)
    ensures bs[r].addr in h && bs[l].addr + HEADER <= End(bs[r - 1])
    ensures var e, a := Mended(h, bs[r].addr, bs[l].addr, relink), AfterRun(bs, l, r);
            && Right(e, a, base, Still(KeptOfRun(bs, kept, l, r), a)) && Untouched(hdr, e, bs, i)
            && (Mirrored(hdr, bs) ==> (Mirrored(e, a) <==> relink || r == l + 1))
  {
    hide Done, Tiled, Linked, Clean, Near, KeptOk, Mended, AfterRun, Still, Untouched, LinksRight;
    BaseOf(hdr, h, bs, base, kept, l, i, r);
    OutsideStays(hdr, h, bs, base, kept, l, i, r, r);
    AfterRunTiled(bs, base, l, r);
    MergedLinks(hdr, h, bs, base, kept, l, i, r, relink);
    MergedIsClean(hdr, h, bs, base, kept, l, i, r, relink);
    MergedKeeps(hdr, h, bs, base, kept, l, i, r, relink);
  }

  lemma BaseOf(hdr: Headers, h: Headers, bs: seq<Block>, base: nat, kept: set<nat>, l: nat, i: nat, r: nat)
    requires Done(hdr, h, bs, base, kept, l, i, r)
    ensures HEADER <= base && Tiled(bs, base) && l <= i < r <= |bs|
  {
  }

  /** If they are not, the merged block counts too much. */
  lemma MergedIsWrong(hdr: Headers, h: Headers, bs: seq<Block>, base: nat, kept: set<nat>, l: nat, i: nat, r: nat, relink: bool, kept': set<nat>)
    requires l < r < |bs| && Done(hdr, h, bs, base, kept, l, i, r) && !LinksRight(hdr, bs, l, i)
    ensures bs[l].addr + HEADER <= End(bs[r - 1])
    ensures !Right(Finish(h, bs[l].addr, relink), AfterRun(bs, l, r), base, kept')
  {
    RightNode(hdr, h, bs, base, kept, l, i, r);
    LastNode(hdr, h, bs, base, kept, l, i, r);
    OutsideStays(hdr, h, bs, base, kept, l, i, r, r);
    AddressesDiffer(bs, base);
    AfterRunAt(bs, l, r, l);
    assert !NodeOk(Finish(h, bs[l].addr, relink), AfterRun(bs, l, r), l);
  }

  // ---------- one free, as the program does it ----------

  /** What freeing block i reads is what no owner wrote: the link back of the run is right; and those
      in the run are right too, or, where the list ends behind the run, lead on over kept headers. */
  ghost predicate SoundAt(hdr: Headers, bs: seq<Block>, i: nat, kept: set<nat>)
    requires i < |bs|
  {
    var l := LeftEnd(bs, i);
    PrevOk(hdr, bs, l) && if RightEnd(bs, i + 1) == |bs| then LinksLead(hdr, bs, l, i, kept) else LinksRight(hdr, bs, l, i)
  }

  ghost function FreeKept(bs: seq<Block>, base: nat, i: nat, kept: set<nat>): set<nat>
    requires Tiled(bs, base) && i < |bs|
  {
    Still(KeptOfRun(bs, kept, LeftEnd(bs, i), RightEnd(bs, i + 1)), FreeAt(bs, base, i))
  }

  lemma RightLinksLead(hdr: Headers, bs: seq<Block>, l: nat, i: nat, kept: set<nat>)
    requires i < |bs| && LinksRight(hdr, bs, l, i)
    ensures LinksLead(hdr, bs, l, i, kept)
  {
    forall j | l < j <= i ensures BackOk(hdr, bs, j, kept) {
      assert PrevOk(hdr, bs, j);
    }
  }

  /** From the start of a free to the node of block t. */
  lemma Reach(hdr: Headers, bs: seq<Block>, base: nat, kept: set<nat>, i: nat, t: nat) returns (h: Headers)
    requires Right(hdr, bs, base, kept) && t <= i < |bs| && LeftEnd(bs, i) <= t && LinksLead(hdr, bs, t, i, kept)
    ensures bs[i].addr in hdr
    ensures LoopBack(Release(hdr, bs[i].addr), bs[i].addr) == LoopBack(h, bs[t].addr)
    ensures Gathered(hdr, h, bs, kept, t, i, i + 1, bs[t].addr)
  {
    hide Right, Gathered, LinksLead, Release;
    StartGathering(hdr, bs, base, kept, i);
    h := ReachBlock(hdr, Release(hdr, bs[i].addr), bs, base, kept, i, i, bs[i].addr, t);
  }

  /** There the loop back ends if the link of block l does not say free. */
  lemma EndsAtRight(hdr: Headers, h: Headers, bs: seq<Block>, base: nat, kept: set<nat>, l: nat, i: nat)
    requires Right(hdr, bs, base, kept) && l < |bs| && Gathered(hdr, h, bs, kept, l, i, i + 1, bs[l].addr)
    requires PrevOk(hdr, bs, l) && (l > 0 ==> bs[l - 1].used)
    ensures !FreeBefore(h, bs[l].addr)
  {
    AroundNode(hdr, h, bs, base, kept, l, i, i + 1, bs[l].addr);
    hide Right, Gathered;
  }

  /** A sound free is right, and writes in no other block that is in use, whatever lies there. */
  lemma FreeIsRight(hdr: Headers, bs: seq<Block>, base: nat, kept: set<nat>, i: nat, relink: bool)
    requires Right(hdr, bs, base, kept) && i < |bs| && SoundAt(hdr, bs, i, kept)
    ensures bs[i].addr in hdr && Tiled(bs, base)
    ensures var e, a := FreeHeaders(hdr, bs[i].addr, Top(bs, base), relink), FreeAt(bs, base, i);
            && Right(e, a, base, FreeKept(bs, base, i, kept)) && Untouched(hdr, e, bs, i)
            && (Mirrored(hdr, bs) ==>
                  (Mirrored(e, a) <==> relink || RightEnd(bs, i + 1) == |bs| || RightEnd(bs, i + 1) == LeftEnd(bs, i) + 1))
  {
    hide Right, Gathered, Mirrored, LoopBack, LoopForth, Finish, LinksLead, LinksRight, PrevOk, Tiled, LeftEnd, RightEnd, Release, Untouched, Still, KeptOfRun, FromRun;
    RightIsTiled(hdr, bs, base, kept);
    var l, r := LeftEnd(bs, i), RightEnd(bs, i + 1);
    RunHasRoom(bs, base, l, r);
    if r < |bs| { RightLinksLead(hdr, bs, l, i, kept); }
    LoopsGather(hdr, bs, base, kept, i);
    var (h, c) := LoopBack(Release(hdr, bs[i].addr), bs[i].addr);
    FinishIsRight(hdr, LoopForth(h, c, Top(bs, base)), bs, base, kept, l, i, r, relink);
  }

  /** Both loops of a free whose links lead to the start of the run. */
  lemma LoopsGather(hdr: Headers, bs: seq<Block>, base: nat, kept: set<nat>, i: nat)
    requires Right(hdr, bs, base, kept) && i < |bs|
    requires PrevOk(hdr, bs, LeftEnd(bs, i)) && LinksLead(hdr, bs, LeftEnd(bs, i), i, kept)
    ensures bs[i].addr in hdr
    ensures var (h, c) := LoopBack(Release(hdr, bs[i].addr), bs[i].addr);
            && c == bs[LeftEnd(bs, i)].addr
            && Gathered(hdr, LoopForth(h, c, Top(bs, base)), bs, kept, LeftEnd(bs, i), i, RightEnd(bs, i + 1), c)
  {
    hide Right, Gathered, LoopForth, LinksLead, PrevOk, LeftEnd, RightEnd, Release, FreeBefore;
    var l := LeftEnd(bs, i);
    var h := Reach(hdr, bs, base, kept, i, l);
    EndsAtRight(hdr, h, bs, base, kept, l, i);
    LoopForthGathers(hdr, h, bs, base, kept, l, i, i + 1, bs[l].addr);
  }

  lemma FinishIsRight(hdr: Headers, h: Headers, bs: seq<Block>, base: nat, kept: set<nat>, l: nat, i: nat, r: nat, relink: bool)
    requires l < r <= |bs| && Right(hdr, bs, base, kept) && Gathered(hdr, h, bs, kept, l, i, r, bs[l].addr)
    requires if r == |bs| then PrevOk(hdr, bs, l) else LinksRight(hdr, bs, l, i)
    ensures bs[l].addr + HEADER <= End(bs[r - 1])
    ensures var e, a := Finish(h, bs[l].addr, relink), bs[..l] + FromRun(bs, l, r);
            && Right(e, a, base, Still(KeptOfRun(bs, kept, l, r), a)) && Untouched(hdr, e, bs, i)
            && (Mirrored(hdr, bs) ==> (Mirrored(e, a) <==> relink || r == |bs| || r == l + 1))
  {
    hide Right, Gathered, Mirrored, LinksRight, PrevOk, Tiled, Untouched, Still, Trim, KeptOfRun;
    BaseOf(hdr, h, bs, base, kept, l, i, r);
    LastNode(hdr, h, bs, base, kept, l, i, r);
    RunHasRoom(bs, base, l, r);
    if r == |bs| {
      TrimIsRight(hdr, h, bs, base, kept, l, i);
      assert bs[..l] + [] == bs[..l];
    } else {
      MergedIsRight(hdr, h, bs, base, kept, l, i, r, relink);
      AfterNode(hdr, h, bs, base, kept, l, i, r, bs[l].addr);
      assert AfterRun(bs, l, r) == bs[..l] + FromRun(bs, l, r);
    }
  }

  // ---------- why the condition is needed ----------

  const BLOCKER: AllocNode := AllocNode(true, 0, 0, 0, 0)
  const OPENER: AllocNode := AllocNode(false, 0, NULL, NULL, 0)

  ghost predicate Known(hdr: Headers, bs: seq<Block>, kept: set<nat>, a: nat) {
    a in hdr && (IsAddress(bs, a) || a in kept)
  }

  /** Where the links that no owner wrote lead. */
  ghost function Targets(hdr: Headers, bs: seq<Block>, kept: set<nat>): set<nat> {
    (set k | 0 <= k < |bs| && bs[k].addr in hdr :: hdr[bs[k].addr].prev) + (set a | a in kept && a in hdr :: hdr[a].prev)
  }

  /** The memory as it may be: wherever an owner can have written stand bytes that say "in use". */
  ghost function BlockedOff(hdr: Headers, bs: seq<Block>, kept: set<nat>): Headers {
    map a | a in hdr.Keys + Targets(hdr, bs, kept) :: if Known(hdr, bs, kept, a) then hdr[a] else BLOCKER
  }

  lemma BlockedOffIsLike(hdr: Headers, bs: seq<Block>, base: nat, kept: set<nat>)
    requires Right(hdr, bs, base, kept)
    ensures var g := BlockedOff(hdr, bs, kept); Like(hdr, g, bs, kept) && Blocked(g, bs, kept)
  {
    var g := BlockedOff(hdr, bs, kept);
    forall k | 0 <= k < |bs| ensures bs[k].addr in hdr && bs[k].addr in g && g[bs[k].addr] == hdr[bs[k].addr] {
      OneNode(hdr, bs, base, kept, k);
      assert IsAddress(bs, bs[k].addr);
    }
    forall a | a in kept ensures a in hdr && a in g && g[a] == hdr[a] {
      var k := OneKept(hdr, bs, base, kept, a);
    }
  }

  /** Likes have the same links. */
  lemma LikeLinks(hdr: Headers, g: Headers, bs: seq<Block>, kept: set<nat>, k: nat)
    requires Like(hdr, g, bs, kept) && k < |bs|
    ensures (PrevOk(g, bs, k) <==> PrevOk(hdr, bs, k)) && (BackOk(g, bs, k, kept) <==> BackOk(hdr, bs, k, kept))
  {
    if k > 0 { LikeLeads(hdr, g, bs, kept, hdr[bs[k].addr].prev, bs[k - 1].addr); }
  }

  lemma {:induction false} LikeLeads(hdr: Headers, g: Headers, bs: seq<Block>, kept: set<nat>, a: nat, lo: nat)
    requires Like(hdr, g, bs, kept)
    ensures Leads(g, a, lo, kept) <==> Leads(hdr, a, lo, kept)
    decreases a
  {
    if a != lo && a in kept && hdr[a].prev < a {
      LikeLeads(hdr, g, bs, kept, hdr[a].prev, lo);
    }
  }

  lemma LikeIsSound(hdr: Headers, g: Headers, bs: seq<Block>, kept: set<nat>, i: nat)
    requires Like(hdr, g, bs, kept) && i < |bs|
    ensures SoundAt(g, bs, i, kept) <==> SoundAt(hdr, bs, i, kept)
    ensures var l := LeftEnd(bs, i);
            && (LinksRight(g, bs, l, i) <==> LinksRight(hdr, bs, l, i))
            && (LinksLead(g, bs, l, i, kept) <==> LinksLead(hdr, bs, l, i, kept))
            && (PrevOk(g, bs, l) <==> PrevOk(hdr, bs, l))
  {
    hide Like, PrevOk, BackOk, LeftEnd, RightEnd;
    forall k | 0 <= k < |bs|
      ensures (PrevOk(g, bs, k) <==> PrevOk(hdr, bs, k)) && (BackOk(g, bs, k, kept) <==> BackOk(hdr, bs, k, kept))
    {
      LikeLinks(hdr, g, bs, kept, k);
    }
  }

  // the loop back does not come to the start of the run

  /** The first block whose link does not lead on, counted from block i down. */
  lemma FirstBroken(hdr: Headers, bs: seq<Block>, l: nat, i: nat, kept: set<nat>) returns (t: nat)
    requires l <= i < |bs| && !LinksLead(hdr, bs, l, i, kept)
    ensures l < t <= i && !BackOk(hdr, bs, t, kept) && LinksLead(hdr, bs, t, i, kept)
  {
    t := i;
    while BackOk(hdr, bs, t, kept)
      invariant l < t <= i && LinksLead(hdr, bs, t, i, kept)
      decreases t
    {
      assert t - 1 == l ==> LinksLead(hdr, bs, l, i, kept);
      t := t - 1;
    }
  }

  /** Then the block before t keeps its signature and its size. */
  lemma BrokenIsWrong(g: Headers, bs: seq<Block>, base: nat, kept: set<nat>, i: nat, relink: bool, kept': set<nat>)
    requires Right(g, bs, base, kept) && Blocked(g, bs, kept) && i < |bs|
    requires !LinksLead(g, bs, LeftEnd(bs, i), i, kept)
    ensures bs[i].addr in g && Tiled(bs, base)
    ensures !Right(FreeHeaders(g, bs[i].addr, Top(bs, base), relink), FreeAt(bs, base, i), base, kept')
  {
    hide Right, Gathered, LoopBack, LoopForth, Finish, Tiled, LeftEnd, RightEnd, Release, FromRun, LinksLead, Blocked;
    RightIsTiled(g, bs, base, kept);
    var l, r := LeftEnd(bs, i), RightEnd(bs, i + 1);
    RunHasRoom(bs, base, l, r);
    var t := LoopsStick(g, bs, base, kept, i);
    var (h, d) := LoopBack(Release(g, bs[i].addr), bs[i].addr);
    StuckIsWrong(g, LoopForth(h, d, Top(bs, base)), bs, base, kept, l, t, i, r, d, relink, kept');
  }

  lemma LoopsStick(g: Headers, bs: seq<Block>, base: nat, kept: set<nat>, i: nat) returns (t: nat)
    requires Right(g, bs, base, kept) && Blocked(g, bs, kept) && i < |bs|
    requires !LinksLead(g, bs, LeftEnd(bs, i), i, kept)
    ensures bs[i].addr in g
    ensures var (h, d) := LoopBack(Release(g, bs[i].addr), bs[i].addr);
            && LeftEnd(bs, i) < t <= i && d in g && g[d].prev != bs[t - 1].addr
            && Gathered(g, LoopForth(h, d, Top(bs, base)), bs, kept, t, i, RightEnd(bs, i + 1), d)
  {
    hide Right, Gathered, LoopForth, LeftEnd, RightEnd, Release, BackOk, LinksLead, Blocked;
    t := FirstBroken(g, bs, LeftEnd(bs, i), i, kept);
    var h := Reach(g, bs, base, kept, i, t);
    Stuck(g, h, bs, base, kept, t, i, bs[t].addr);
    var (h', d) := LoopBack(h, bs[t].addr);
    LoopForthGathers(g, h', bs, base, kept, t, i, i + 1, d);
  }

  lemma StuckIsWrong(g: Headers, h: Headers, bs: seq<Block>, base: nat, kept: set<nat>, l: nat, t: nat, i: nat, r: nat, d: nat, relink: bool, kept': set<nat>)
    requires Right(g, bs, base, kept) && Gathered(g, h, bs, kept, t, i, r, d)
    requires l < t < r <= |bs| && d in g && g[d].prev != bs[t - 1].addr && bs[l].addr + HEADER <= End(bs[r - 1])
    ensures !Right(Finish(h, d, relink), bs[..l] + FromRun(bs, l, r), base, kept')
  {
    hide Finish, Gathered, Right, Tiled, FromRun;
    StuckStays(g, h, bs, base, kept, t, i, r, d, relink);
    RightIsTiled(g, bs, base, kept);
    var e, f := Finish(h, d, relink), bs[..l] + FromRun(bs, l, r);
    if Right(e, f, base, kept') {
      KeepsNode(e, f, base, kept', bs[t - 1].addr);
      assert false by { NotInMerged(bs, base, l, r, t - 1); }
    }
  }

  lemma StuckStays(g: Headers, h: Headers, bs: seq<Block>, base: nat, kept: set<nat>, t: nat, i: nat, r: nat, d: nat, relink: bool)
    requires Right(g, bs, base, kept) && Gathered(g, h, bs, kept, t, i, r, d) && t > 0
    requires d in g && g[d].prev != bs[t - 1].addr
    ensures var e, a := Finish(h, d, relink), bs[t - 1].addr;
            a in e && e[a].signature == MAGIC && e[a].capacity == bs[t - 1].cap
  {
    hide Tiled;
    RightIsTiled(g, bs, base, kept);
    AroundNode(g, h, bs, base, kept, t, i, r, d);
    WayBack(g, bs, base, kept, t, d);
    AfterNode(g, h, bs, base, kept, t, i, r, d);
    TiledOrder(bs, base, t - 1, t);
    hide Right, Reaches, Swallowed, LinksLead, LinksRight;
  }

  /** A header with the signature is that of a block, with its size. */
  lemma KeepsNode(e: Headers, f: seq<Block>, base: nat, kept: set<nat>, a: nat)
    requires Right(e, f, base, kept) && a in e && e[a].signature == MAGIC
    ensures exists k :: 0 <= k < |f| && f[k].addr == a && f[k].cap == e[a].capacity
  {
    assert IsAddress(f, a);
    var k :| 0 <= k < |f| && f[k].addr == a;
    OneNode(e, f, base, kept, k);
  }

  /** No block of the run stays as it was. */
  lemma NotInMerged(bs: seq<Block>, base: nat, l: nat, r: nat, m: nat)
    requires Tiled(bs, base) && l <= m && m + 1 < r <= |bs| && bs[l].addr + HEADER <= End(bs[r - 1])
    ensures var f := bs[..l] + FromRun(bs, l, r);
            !exists k :: 0 <= k < |f| && f[k].addr == bs[m].addr && f[k].cap == bs[m].cap
  {
    var f := bs[..l] + FromRun(bs, l, r);
    forall k | 0 <= k < |f| ensures f[k].addr != bs[m].addr || f[k].cap != bs[m].cap {
      OtherNode(bs, base, l, r, m, k);
    }
  }

  lemma OtherNode(bs: seq<Block>, base: nat, l: nat, r: nat, m: nat, k: nat)
    requires Tiled(bs, base) && l <= m && m + 1 < r <= |bs| && bs[l].addr + HEADER <= End(bs[r - 1])
    requires k < |bs[..l] + FromRun(bs, l, r)|
    ensures var f := bs[..l] + FromRun(bs, l, r); f[k].addr != bs[m].addr || f[k].cap != bs[m].cap
  {
    NodeAfterFree(bs, l, r, k);
    hide FromRun, Tiled;
    if k < l {
      TiledOrder(bs, base, k, m);
    } else if k == l {
      TiledOrder(bs, base, m, r - 1);
      if l < m { TiledOrder(bs, base, l, m); }
    } else {
      TiledOrder(bs, base, m, k + r - l - 1);
    }
  }

  lemma NodeAfterFree(bs: seq<Block>, l: nat, r: nat, k: nat)
    requires l < r <= |bs| && bs[l].addr + HEADER <= End(bs[r - 1]) && k < |bs[..l] + FromRun(bs, l, r)|
    ensures k > l ==> k + r - l - 1 < |bs|
    ensures (bs[..l] + FromRun(bs, l, r))[k] == if k < l then bs[k] else if k == l then OneFree(bs, l, r) else bs[k + r - l - 1]
  {
  }

  // the loop back comes to the start of the run, and ends there

  lemma EndsAtBlocked(g: Headers, h: Headers, bs: seq<Block>, base: nat, kept: set<nat>, l: nat, i: nat)
    requires Right(g, bs, base, kept) && Blocked(g, bs, kept)
    requires l < |bs| && Gathered(g, h, bs, kept, l, i, i + 1, bs[l].addr) && (l > 0 ==> bs[l - 1].used)
    ensures !FreeBefore(h, bs[l].addr)
  {
    AroundNode(g, h, bs, base, kept, l, i, i + 1, bs[l].addr);
    WayBack(g, bs, base, kept, l, bs[l].addr);
    if FreeBefore(h, bs[l].addr) {
      BlockedIsTrusted(g, h, bs, base, kept, l, i, i + 1, bs[l].addr);
      var p := g[bs[l].addr].prev;
      if p != bs[l - 1].addr {
        var k := OneKept(g, bs, base, kept, p);
        InsideOne(bs, base, l - 1, p);
        assert false;
      }
    }
  }

  lemma LoopsGatherBlocked(g: Headers, bs: seq<Block>, base: nat, kept: set<nat>, i: nat)
    requires Right(g, bs, base, kept) && Blocked(g, bs, kept) && i < |bs| && LinksLead(g, bs, LeftEnd(bs, i), i, kept)
    ensures bs[i].addr in g
    ensures var (h, c) := LoopBack(Release(g, bs[i].addr), bs[i].addr);
            && c == bs[LeftEnd(bs, i)].addr
            && Gathered(g, LoopForth(h, c, Top(bs, base)), bs, kept, LeftEnd(bs, i), i, RightEnd(bs, i + 1), c)
  {
    hide Right, Gathered, LoopForth, LinksLead, LeftEnd, RightEnd, Release, FreeBefore, Blocked;
    var l := LeftEnd(bs, i);
    var h := Reach(g, bs, base, kept, i, l);
    EndsAtBlocked(g, h, bs, base, kept, l, i);
    LoopForthGathers(g, h, bs, base, kept, l, i, i + 1, bs[l].addr);
  }

  lemma BlockedIsWrong(g: Headers, bs: seq<Block>, base: nat, kept: set<nat>, i: nat, relink: bool, kept': set<nat>)
    requires Right(g, bs, base, kept) && Blocked(g, bs, kept) && i < |bs| && LinksLead(g, bs, LeftEnd(bs, i), i, kept)
    requires if RightEnd(bs, i + 1) == |bs| then !PrevOk(g, bs, LeftEnd(bs, i)) else !LinksRight(g, bs, LeftEnd(bs, i), i)
    ensures bs[i].addr in g && Tiled(bs, base)
    ensures !Right(FreeHeaders(g, bs[i].addr, Top(bs, base), relink), FreeAt(bs, base, i), base, kept')
  {
    hide Right, Gathered, LoopBack, LoopForth, Finish, Tiled, LeftEnd, RightEnd, Release, LinksLead, LinksRight, PrevOk, Blocked;
    RightIsTiled(g, bs, base, kept);
    var l, r := LeftEnd(bs, i), RightEnd(bs, i + 1);
    RunHasRoom(bs, base, l, r);
    LoopsGatherBlocked(g, bs, base, kept, i);
    var (h, c) := LoopBack(Release(g, bs[i].addr), bs[i].addr);
    FinishIsWrong(g, LoopForth(h, c, Top(bs, base)), bs, base, kept, l, i, r, relink, kept');
  }

  lemma FinishIsWrong(g: Headers, h: Headers, bs: seq<Block>, base: nat, kept: set<nat>, l: nat, i: nat, r: nat, relink: bool, kept': set<nat>)
    requires l < r <= |bs| && Right(g, bs, base, kept) && Gathered(g, h, bs, kept, l, i, r, bs[l].addr)
    requires if r == |bs| then !PrevOk(g, bs, l) else !LinksRight(g, bs, l, i)
    ensures bs[l].addr + HEADER <= End(bs[r - 1])
    ensures !Right(Finish(h, bs[l].addr, relink), bs[..l] + FromRun(bs, l, r), base, kept')
  {
    hide Right, Gathered, LinksRight, PrevOk, Tiled, Finish;
    BaseOf(g, h, bs, base, kept, l, i, r);
    RunHasRoom(bs, base, l, r);
    if r == |bs| {
      TrimIsWrong(g, h, bs, base, kept, l, i, relink, kept');
      assert bs[..l] + [] == bs[..l];
    } else {
      MergedIsWrong(g, h, bs, base, kept, l, i, r, relink, kept');
      assert AfterRun(bs, l, r) == bs[..l] + FromRun(bs, l, r);
    }
  }

  // the loop back goes on into a block in use

  lemma {:induction false} ForthSpares(h: Headers, c: nat, top: nat, a: nat)
    requires c in h && a in h && a != c && (h[c].next == NULL || a < h[c].next)
    ensures a in LoopForth(h, c, top) && LoopForth(h, c, top)[a] == h[a]
    decreases if h[c].next != NULL && h[c].next < top then top - h[c].next else 0
  {
    if FreeAfter(h, c, top) {
      ForthSpares(MergeForth(h, c), c, top, a);
    }
  }

  lemma FinishSpares(h: Headers, c: nat, relink: bool, a: nat)
    requires a in h && a != c
    ensures a in Finish(h, c, relink) && Finish(h, c, relink)[a].signature == h[a].signature
  {
  }

  /** If bytes of the block before say "free", the first node of the run loses its signature to them. */
  lemma OpenedIsWrong(hdr: Headers, bs: seq<Block>, base: nat, kept: set<nat>, i: nat, relink: bool, kept': set<nat>) returns (g: Headers)
    requires Right(hdr, bs, base, kept) && i < |bs| && RightEnd(bs, i + 1) < |bs|
    requires LinksRight(hdr, bs, LeftEnd(bs, i), i) && !PrevOk(hdr, bs, LeftEnd(bs, i))
    ensures Like(hdr, g, bs, kept) && bs[i].addr in g && Tiled(bs, base)
    ensures !Right(FreeHeaders(g, bs[i].addr, Top(bs, base), relink), FreeAt(bs, base, i), base, kept')
  {
    hide LoopForth, Finish, Tiled, LeftEnd, RightEnd, Release, LinksLead, LinksRight, Right, Gathered;
    RightIsTiled(hdr, bs, base, kept);
    var l, r := LeftEnd(bs, i), RightEnd(bs, i + 1);
    RunHasRoom(bs, base, l, r);
    g := Opened(hdr, bs, base, kept, l);
    LikeIsRight(hdr, g, bs, base, kept);
    LikeIsSound(hdr, g, bs, kept, i);
    RightLinksLead(g, bs, l, i, kept);
    var h := Reach(g, bs, base, kept, i, l);
    var h', p := EntersOpened(g, h, bs, base, kept, l, i);
    LosesSignature(h', bs[l].addr, p, Top(bs, base), relink);
    var e, f := Finish(LoopForth(h', p, Top(bs, base)), p, relink), bs[..l] + FromRun(bs, l, r);
    assert f[l].addr == bs[l].addr;
    if Right(e, f, base, kept') {
      OneNode(e, f, base, kept', l);
      assert false;
    }
  }

  lemma Opened(hdr: Headers, bs: seq<Block>, base: nat, kept: set<nat>, l: nat) returns (g: Headers)
    requires Right(hdr, bs, base, kept) && l < |bs| && !PrevOk(hdr, bs, l) && (l > 0 ==> bs[l - 1].used)
    ensures l > 0 && bs[l].addr in hdr && bs[l].addr in g && hdr[bs[l].addr].prev in g && g[hdr[bs[l].addr].prev] == OPENER
    ensures Like(hdr, g, bs, kept) && g[bs[l].addr].prev == hdr[bs[l].addr].prev
  {
    OneNode(hdr, bs, base, kept, l);
    var p := hdr[bs[l].addr].prev;
    InsideOne(bs, base, l - 1, p);
    g := hdr[p := OPENER];
    forall k | 0 <= k < |bs| ensures bs[k].addr in hdr && bs[k].addr != p {
      OneNode(hdr, bs, base, kept, k);
      assert IsAddress(bs, bs[k].addr);
    }
    forall a | a in kept ensures a in hdr && a != p {
      var k := OneKept(hdr, bs, base, kept, a);
    }
  }

  lemma EntersOpened(g: Headers, h: Headers, bs: seq<Block>, base: nat, kept: set<nat>, l: nat, i: nat) returns (h': Headers, p: nat)
    requires Right(g, bs, base, kept) && l < |bs| && Gathered(g, h, bs, kept, l, i, i + 1, bs[l].addr)
    requires bs[l].addr in g && !PrevOk(g, bs, l) && g[bs[l].addr].prev in g && g[g[bs[l].addr].prev] == OPENER
    ensures LoopBack(h, bs[l].addr) == (h', p)
    ensures p in h' && bs[l].addr in h' && p < bs[l].addr && h'[bs[l].addr].signature == 0
    ensures h'[p].next == NULL || bs[l].addr < h'[p].next
  {
    AroundNode(g, h, bs, base, kept, l, i, i + 1, bs[l].addr);
    AfterNode(g, h, bs, base, kept, l, i, i + 1, bs[l].addr);
    OneNode(g, bs, base, kept, l);
    hide Right, Gathered;
    p := g[bs[l].addr].prev;
    h' := MergeBack(h, bs[l].addr);
    assert FreeBefore(h, bs[l].addr) && !FreeBefore(h', p);
    assert LoopBack(h, bs[l].addr) == LoopBack(h', p);
  }

  lemma LosesSignature(h: Headers, a: nat, p: nat, top: nat, relink: bool)
    requires p in h && a in h && p < a && h[a].signature == 0 && (h[p].next == NULL || a < h[p].next)
    ensures var e := Finish(LoopForth(h, p, top), p, relink); a in e && e[a].signature == 0
  {
    ForthSpares(h, p, top, a);
    FinishSpares(LoopForth(h, p, top), p, relink, a);
  }

  // ---------- the condition is exact ----------

  ghost predicate Succeeds(g: Headers, bs: seq<Block>, base: nat, kept: set<nat>, i: nat, relink: bool)
    requires Tiled(bs, base) && i < |bs|
  {
    && bs[i].addr in g
    && var e := FreeHeaders(g, bs[i].addr, Top(bs, base), relink);
       Right(e, FreeAt(bs, base, i), base, FreeKept(bs, base, i, kept)) && Untouched(g, e, bs, i)
  }

  /** A free as the program does it leaves headers that stand for the freed list, and writes in no
      other block in use, whatever the owners wrote, if and only if it is sound. */
  lemma FreeIsRightIff(hdr: Headers, bs: seq<Block>, base: nat, kept: set<nat>, i: nat, relink: bool)
    requires Right(hdr, bs, base, kept) && i < |bs|
    ensures Tiled(bs, base)
    ensures (forall g :: Like(hdr, g, bs, kept) ==> Succeeds(g, bs, base, kept, i, relink)) <==> SoundAt(hdr, bs, i, kept)
  {
    RightIsTiled(hdr, bs, base, kept);
    hide Right, Like, Untouched, FreeHeaders, FreeAt, FreeKept, LeftEnd, RightEnd, LinksLead, LinksRight, PrevOk, Tiled, Blocked, BlockedOff;
    if SoundAt(hdr, bs, i, kept) {
      forall g | Like(hdr, g, bs, kept) ensures Succeeds(g, bs, base, kept, i, relink) {
        LikeIsRight(hdr, g, bs, base, kept);
        LikeIsSound(hdr, g, bs, kept, i);
        FreeIsRight(g, bs, base, kept, i, relink);
      }
    } else {
      var g := UnsoundFails(hdr, bs, base, kept, i, relink);
      assert !Succeeds(g, bs, base, kept, i, relink);
    }
  }

  lemma UnsoundFails(hdr: Headers, bs: seq<Block>, base: nat, kept: set<nat>, i: nat, relink: bool) returns (g: Headers)
    requires Right(hdr, bs, base, kept) && i < |bs| && !SoundAt(hdr, bs, i, kept)
    ensures Like(hdr, g, bs, kept) && bs[i].addr in g && Tiled(bs, base)
    ensures !Right(FreeHeaders(g, bs[i].addr, Top(bs, base), relink), FreeAt(bs, base, i), base, FreeKept(bs, base, i, kept))
  {
    RightIsTiled(hdr, bs, base, kept);
    hide Right, Like, FreeHeaders, FreeAt, FreeKept, LeftEnd, RightEnd, LinksLead, LinksRight, PrevOk, Tiled, Blocked, BlockedOff;
    var kept' := FreeKept(bs, base, i, kept);
    if RightEnd(bs, i + 1) < |bs| && LinksRight(hdr, bs, LeftEnd(bs, i), i) {
      g := OpenedIsWrong(hdr, bs, base, kept, i, relink, kept');
    } else {
      g := BlockedOff(hdr, bs, kept);
      BlockedOffIsLike(hdr, bs, base, kept);
      LikeIsRight(hdr, g, bs, base, kept);
      LikeIsSound(hdr, g, bs, kept, i);
      if LinksLead(g, bs, LeftEnd(bs, i), i, kept) {
        BlockedIsWrong(g, bs, base, kept, i, relink, kept');
      } else {
        BrokenIsWrong(g, bs, base, kept, i, relink, kept');
      }
    }
  }

  // ---------- a free by address ----------

  predicate IsUsedHeader(hdr: Headers, a: nat) {
    a in hdr && hdr[a].signature == MAGIC && hdr[a].inUse
  }

  /** What freeing the address a makes of the headers; anything but a used header is refused. */
  function FreedHeaders(hdr: Headers, a: nat, top: nat, relink: bool): Headers {
    if IsUsedHeader(hdr, a) then FreeHeaders(hdr, a, top, relink) else hdr
  }

  ghost predicate SoundFree(hdr: Headers, bs: seq<Block>, a: nat, kept: set<nat>) {
    var i := IndexOf(bs, a, 0);
    i < |bs| && bs[i].used ==> SoundAt(hdr, bs, i, kept)
  }

  ghost function FreedKept(bs: seq<Block>, base: nat, a: nat, kept: set<nat>): set<nat>
    requires Tiled(bs, base)
  {
    var i := IndexOf(bs, a, 0);
    if i < |bs| && bs[i].used then FreeKept(bs, base, i, kept) else kept
  }

  /** Freeing the address a does nothing, or cuts off the end of the list, or merges nothing. */
  predicate KeepsLinks(bs: seq<Block>, a: nat) {
    var i := IndexOf(bs, a, 0);
    i < |bs| && bs[i].used ==> RightEnd(bs, i + 1) == |bs| || RightEnd(bs, i + 1) == LeftEnd(bs, i) + 1
  }

  lemma FreedIsRight(hdr: Headers, bs: seq<Block>, base: nat, a: nat, kept: set<nat>, relink: bool)
    requires Right(hdr, bs, base, kept) && SoundFree(hdr, bs, a, kept)
    ensures Tiled(bs, base)
    ensures var h, r := FreedHeaders(hdr, a, Top(bs, base), relink), Freed(bs, base, a);
            && Right(h, r, base, FreedKept(bs, base, a, kept)) && Untouched(hdr, h, bs, IndexOf(bs, a, 0))
            && (Mirrored(hdr, bs) ==> (Mirrored(h, r) <==> relink || KeepsLinks(bs, a)))
  {
    RightIsTiled(hdr, bs, base, kept);
    hide Right, Mirrored, FreeHeaders, FreeAt, Tiled, SoundAt, FreeKept;
    var i := IndexOf(bs, a, 0);
    NodeAt(hdr, bs, base, a, kept);
    if i < |bs| && bs[i].used {
      hide Untouched;
      FreeIsRight(hdr, bs, base, kept, i, relink);
    }
  }

  /** Where the links back mirror the links forth every free is sound. */
  lemma MirroredIsSound(hdr: Headers, bs: seq<Block>, a: nat, kept: set<nat>)
    requires Mirrored(hdr, bs)
    ensures SoundFree(hdr, bs, a, kept)
  {
    var i := IndexOf(bs, a, 0);
    if i < |bs| && bs[i].used {
      RightLinksLead(hdr, bs, LeftEnd(bs, i), i, kept);
    }
  }

  /** A free by address succeeds, whatever the owners wrote, if and only if it is sound. */
  ghost predicate FreeSucceeds(g: Headers, bs: seq<Block>, base: nat, a: nat, kept: set<nat>, relink: bool)
    requires Tiled(bs, base)
  {
    var h := FreedHeaders(g, a, Top(bs, base), relink);
    Right(h, Freed(bs, base, a), base, FreedKept(bs, base, a, kept)) && Untouched(g, h, bs, IndexOf(bs, a, 0))
  }

  lemma FreedIsRightIff(hdr: Headers, bs: seq<Block>, base: nat, a: nat, kept: set<nat>, relink: bool)
    requires Right(hdr, bs, base, kept)
    ensures Tiled(bs, base)
    ensures (forall g :: Like(hdr, g, bs, kept) ==> FreeSucceeds(g, bs, base, a, kept, relink)) <==> SoundFree(hdr, bs, a, kept)
  {
    RightIsTiled(hdr, bs, base, kept);
    var i := IndexOf(bs, a, 0);
    hide Right, Like, Untouched, FreeHeaders, FreeAt, FreeKept, Tiled, SoundAt, IndexOf;
    if i < |bs| && bs[i].used {
      FreeIsRightIff(hdr, bs, base, kept, i, relink);
      forall g | Like(hdr, g, bs, kept) ensures FreeSucceeds(g, bs, base, a, kept, relink) <==> Succeeds(g, bs, base, kept, i, relink) {
        LikeIsRight(hdr, g, bs, base, kept);
        NodeAt(g, bs, base, a, kept);
      }
    } else {
      forall g | Like(hdr, g, bs, kept) ensures FreeSucceeds(g, bs, base, a, kept, relink) {
        LikeIsRight(hdr, g, bs, base, kept);
        FreedIsRight(g, bs, base, a, kept, relink);
      }
    }
  }

  /** Where no two free blocks lie side by side, at most two links back are read. */
  lemma SoundWhereNormal(hdr: Headers, bs: seq<Block>, base: nat, i: nat, kept: set<nat>)
    requires Tiled(bs, base) && Normal(bs) && i < |bs| && bs[i].used
    ensures SoundAt(hdr, bs, i, kept) <==>
              if i == 0 || bs[i - 1].used then PrevOk(hdr, bs, i)
              else PrevOk(hdr, bs, i - 1) && if i + 1 == |bs| then BackOk(hdr, bs, i, kept) else PrevOk(hdr, bs, i)
  {
    FreeInNormal(bs, base, i);
    hide PrevOk, BackOk, Tiled;
  }

  /** Freeing an address where no used block is writes nothing. */
  lemma OtherFreesWriteNothing(hdr: Headers, bs: seq<Block>, base: nat, kept: set<nat>, a: nat, top: nat, relink: bool)
    requires Right(hdr, bs, base, kept) && forall k :: 0 <= k < |bs| && bs[k].used ==> bs[k].addr != a
    ensures FreedHeaders(hdr, a, top, relink) == hdr
  {
    hide Right, FreeHeaders;
    NodeAt(hdr, bs, base, a, kept);
  }
}
