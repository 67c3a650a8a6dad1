/** The paged memory of Memory_Manager/totalrecall.c as a value, and its operations as functions.

    A thread sees one linear space of pages.  Physically there are N page frames and M slots of
    a swap file; each of the N + M places has a node that says whose page lies there and, when
    the page is away from home, at which frame it belongs. */
module PageTable {

  newtype byte = x: int | 0 <= x < 256

  type Page = seq<byte>

  /** `retAddr` is -1 for a page lying in its own frame; owner 0 means the place is free. */
  datatype PageNode = PageNode(threadid: int, retAddr: int, referenceBit: bool)

  /** Nodes 0..N describe the frames, nodes N..N+M the slots of the swap file.
      `open[i]` says that frame i is readable and writable; the others fault when touched. */
  datatype State = State(
    nodes: seq<PageNode>,
    ram: seq<Page>,
    swapFile: seq<Page>,
    open: seq<bool>,
    hand: nat,
    currThread: int)
  {
    ghost predicate Valid() {
      && |ram| == |open|
      && |nodes| == |ram| + |swapFile|
      && hand < |ram|
      && currThread != 0
      && forall i :: 0 <= i < |nodes| ==> -1 <= nodes[i].retAddr < |ram|
    }

    /** The frame after frame i, in ring order. */
    function After(i: nat): nat {
      if i == |ram| - 1 then 0 else i + 1
    }

    /** What lies at place i, whether frame or slot. */
    function CellAt(i: nat): Cell
      requires i < |nodes| == |ram| + |swapFile|
    {
      Cell(nodes[i].threadid,
           if nodes[i].retAddr == -1 then i else nodes[i].retAddr,
           if i < |ram| then ram[i] else swapFile[i - |ram|])
    }

    function Cells(): (c: seq<Cell>)
      requires |nodes| == |ram| + |swapFile|
    {
      seq(|nodes|, i requires 0 <= i < |nodes| => CellAt(i))
    }
  }

  /** The home of a page is the frame where its owner addresses it.  The nodes of a slot never
      held by a thread give it a number that is no frame. */
  datatype Cell = Cell(owner: int, home: int, bytes: Page)

  /** What a search through the nodes looks for: a page of a given owner marked as displaced
      from a given frame, or a free place. */
  datatype Want = PageOf(owner: int, frame: int) | FreePlace

  predicate Matches(n: PageNode, w: Want) {
    match w
    case PageOf(t, v) => n.threadid == t && n.retAddr == v
    case FreePlace => n.threadid == 0
  }

  /** The first node in lo..hi that matches, or hi. */
  function First(nodes: seq<PageNode>, lo: nat, hi: nat, w: Want): (r: nat)
    requires lo <= hi <= |nodes|
    ensures lo <= r <= hi
    ensures r < hi ==> Matches(nodes[r], w)
    ensures forall k :: lo <= k < r ==> !Matches(nodes[k], w)
    decreases hi - lo
  {
    if lo == hi || Matches(nodes[lo], w) then lo else First(nodes, lo + 1, hi, w)
  }

  lemma FirstIs(nodes: seq<PageNode>, lo: nat, hi: nat, w: Want, r: nat)
    requires lo <= r <= hi <= |nodes|
    requires r < hi ==> Matches(nodes[r], w)
    requires forall k :: lo <= k < r ==> !Matches(nodes[k], w)
    ensures First(nodes, lo, hi, w) == r
  {
  }

  /** The operations keep the table well formed and its sizes and running thread as they are. */
  ghost predicate Reshapes(s: State, r: State) {
    r.Valid() && |r.ram| == |s.ram| && |r.nodes| == |s.nodes| && r.currThread == s.currThread
  }

  // ---------- exchanging pages ----------

  /** Exchange frames `out` and `inn`.  The page that leaves `out` is marked as belonging to
      `out`; the page that arrives keeps its mark when `keepMark`, else it counts as home. */
  function SwapPage(s: State, out: nat, inn: nat, keepMark: bool): (r: State)
    requires s.Valid() && out < |s.ram| && inn < |s.ram|
    ensures Reshapes(s, r)
  {
    var a, b := s.nodes[out], s.nodes[inn];
    s.(nodes := s.nodes[inn := PageNode(a.threadid, out, a.referenceBit)]
       [out := PageNode(b.threadid, if keepMark then b.retAddr else -1, b.referenceBit)],
       ram := s.ram[inn := s.ram[out]][out := s.ram[inn]],
       open := s.open[out := true][inn := false])
  }

  /** Exchange frame `out` with slot `k` of the swap file.  Reference bits stay where they are. */
  function SwapFileGrab(s: State, out: nat, k: nat): (r: State)
    requires s.Valid() && out < |s.ram| && k < |s.swapFile|
    ensures Reshapes(s, r)
  {
    var a, b := s.nodes[out], s.nodes[|s.ram| + k];
    s.(nodes := s.nodes[|s.ram| + k := PageNode(a.threadid, out, b.referenceBit)]
       [out := PageNode(b.threadid, -1, a.referenceBit)],
       swapFile := s.swapFile[k := s.ram[out]],
       ram := s.ram[out := s.swapFile[k]],
       open := s.open[out := true])
  }

  // ---------- choosing a victim ----------

  function SetBits(nodes: seq<PageNode>): nat {
    if nodes == [] then 0 else (if nodes[0].referenceBit then 1 else 0) + SetBits(nodes[1..])
  }

  function ClearBit(nodes: seq<PageNode>, i: nat): seq<PageNode>
    requires i < |nodes|
  {
    nodes[i := nodes[i].(referenceBit := false)]
  }

  lemma {:induction false} ClearingLowersSetBits(nodes: seq<PageNode>, i: nat)
    requires i < |nodes| && nodes[i].referenceBit
    ensures SetBits(ClearBit(nodes, i)) == SetBits(nodes) - 1
  {
    if i == 0 {
      assert ClearBit(nodes, 0)[1..] == nodes[1..];
    } else {
      assert ClearBit(nodes, i)[1..] == ClearBit(nodes[1..], i - 1);
      ClearingLowersSetBits(nodes[1..], i - 1);
    }
  }

  /** Where the loop of `evictPage` looks: one frame of the running thread is skipped, not more. */
  function Candidate(s: State): (h: nat)
    requires s.Valid()
  {
    if s.nodes[s.hand].threadid == s.currThread then s.After(s.hand) else s.hand
  }

  /** Second-chance eviction: the state after it, the frame it chose, and its number of rounds. */
  function Evict(s: State): (r: (State, nat, nat))
    requires s.Valid()
    ensures r.0.Valid() && r.1 < |s.ram|
    ensures r.0 == s.(nodes := r.0.nodes, hand := s.After(r.1))
    decreases SetBits(s.nodes[..|s.ram|])
  {
    var h := Candidate(s);
    if s.nodes[h].referenceBit then
      ClearingLowersSetBits(s.nodes[..|s.ram|], h);
      assert ClearBit(s.nodes, h)[..|s.ram|] == ClearBit(s.nodes[..|s.ram|], h);
      var (s', v, n) := Evict(s.(nodes := ClearBit(s.nodes, h), hand := s.After(h)));
      (s', v, n + 1)
    else
      (s.(hand := s.After(h)), h, 1)
  }

  // ---------- a page fault ----------

  datatype Path =
    | AlreadyHome
    | Displaced(frame: nat)
    | InSwap(slot: nat)
    | FreeFrame
    | EmptyElsewhere(frame: nat)
    | ToSwap(slot: nat)
    | Exhausted

  predicate InRange(s: State, p: Path) {
    match p
    case Displaced(j) => j < |s.ram|
    case EmptyElsewhere(j) => j < |s.ram|
    case InSwap(k) => k < |s.swapFile|
    case ToSwap(k) => k < |s.swapFile|
    case _ => true
  }

  /** The path when no frame helps. */
  function SwapPath(s: State): (p: Path)
    requires s.Valid()
    ensures InRange(s, p)
  {
    var i := First(s.nodes, |s.ram|, |s.nodes|, FreePlace);
    if i < |s.nodes| then ToSwap(i - |s.ram|) else Exhausted
  }

  /** Which of its paths the fault handler takes for a fault of the running thread in frame v. */
  function PathOf(s: State, v: nat): (p: Path)
    requires s.Valid() && v < |s.ram|
    ensures InRange(s, p)
  {
    var n, all := |s.ram|, |s.nodes|;
    var mine := PageOf(s.currThread, v);
    if Matches(s.nodes[v], PageOf(s.currThread, -1)) then AlreadyHome
    else if First(s.nodes, 0, n, mine) < n then Displaced(First(s.nodes, 0, n, mine))
    else if First(s.nodes, n, all, mine) < all then InSwap(First(s.nodes, n, all, mine) - n)
    else if Matches(s.nodes[v], FreePlace) then FreeFrame
    else if First(s.nodes, 0, n, FreePlace) < n then EmptyElsewhere(First(s.nodes, 0, n, FreePlace))
    else SwapPath(s)
  }

  /** The last part of both eviction paths: victim f makes room for slot k, by way of frame v. */
  function BringIn(s: State, v: nat, f: nat, k: nat): (r: State)
    requires s.Valid() && v < |s.ram| && f < |s.ram| && k < |s.swapFile|
    ensures Reshapes(s, r)
  {
    SwapFileGrab(if f == v then s else SwapPage(s, v, f, true), v, k)
  }

  function Touch(s: State, i: nat): (r: State)
    requires s.Valid() && i < |s.nodes|
    ensures Reshapes(s, r)
  {
    s.(nodes := s.nodes[i := s.nodes[i].(referenceBit := true)])
  }

  function Claim(s: State, i: nat): (r: State)
    requires s.Valid() && i < |s.nodes|
    ensures Reshapes(s, r)
  {
    s.(nodes := s.nodes[i := PageNode(s.currThread, s.nodes[i].retAddr, true)])
  }

  /** Slot k comes to frame v, and a victim takes its place. */
  function FetchSlot(s: State, v: nat, k: nat): (r: State)
    requires s.Valid() && v < |s.ram| && k < |s.swapFile|
    ensures Reshapes(s, r)
  {
    var (s', f, _) := Evict(s);
    BringIn(s', v, f, k)
  }

  /** The running thread takes free slot k, and victim f moves there. */
  function ClaimSlot(s: State, v: nat, f: nat, k: nat): (r: State)
    requires s.Valid() && v < |s.ram| && f < |s.ram| && k < |s.swapFile|
    ensures Reshapes(s, r)
  {
    BringIn(Claim(s, |s.ram| + k), v, f, k)
  }

  /** What the handler does on path p. */
  function Take(s: State, v: nat, p: Path): (r: State)
    requires s.Valid() && v < |s.ram| && InRange(s, p)
    ensures Reshapes(s, r)
  {
    match p
    case AlreadyHome =>
      Touch(s, v).(open := s.open[v := true])
    case Displaced(j) =>
      SwapPage(Touch(s, j), v, j, false)
    case InSwap(k) =>
      FetchSlot(Touch(s, |s.ram| + k), v, k)
    case FreeFrame =>
      Claim(s, v).(open := s.open[v := true])
    case EmptyElsewhere(j) =>
      SwapPage(Claim(s, j), v, j, false)
    case ToSwap(k) =>
      var (s', f, _) := Evict(s);
      ClaimSlot(s', v, f, k)
    case Exhausted =>
      Evict(s).0
  }

  function Fault(s: State, v: nat): (r: State)
    requires s.Valid() && v < |s.ram|
    ensures Reshapes(s, r)
  {
    Take(s, v, PathOf(s, v))
  }

  // ---------- protecting pages at a switch ----------

  /** The walk of `protectPages` ends at the first free frame. */
  function Reach(s: State): nat
    requires s.Valid()
  {
    First(s.nodes, 0, |s.ram|, FreePlace)
  }

  function Zeroed(p: Page): Page {
    seq(|p|, _ => 0)
  }

  /** Close the frames of thread t among the first n; on exit also wipe and free them. */
  function Shield(s: State, t: int, exiting: bool, n: nat): State
    requires s.Valid() && n <= |s.ram|
  {
    s.(open := seq(|s.ram|, i requires 0 <= i < |s.ram| => s.open[i] && !(i < n && s.nodes[i].threadid == t)),
       nodes := seq(|s.nodes|, i requires 0 <= i < |s.nodes| =>
         if exiting && i < n && s.nodes[i].threadid == t then PageNode(0, -1, s.nodes[i].referenceBit) else s.nodes[i]),
       ram := seq(|s.ram|, i requires 0 <= i < |s.ram| =>
         if exiting && i < n && s.nodes[i].threadid == t then Zeroed(s.ram[i]) else s.ram[i]))
  }

  function ShieldOne(s: State, t: int, exiting: bool, i: nat): State
    requires s.Valid() && i < |s.ram|
  {
    if s.nodes[i].threadid != t then s
    else if exiting then
      s.(open := s.open[i := false],
         ram := s.ram[i := Zeroed(s.ram[i])],
         nodes := s.nodes[i := PageNode(0, -1, s.nodes[i].referenceBit)])
    else s.(open := s.open[i := false])
  }

  lemma ShieldNone(s: State, t: int, exiting: bool)
    requires s.Valid()
    ensures Shield(s, t, exiting, 0) == s
  {
  }

  lemma ShieldStep(s: State, t: int, exiting: bool, i: nat)
    requires s.Valid() && i < |s.ram|
    ensures Shield(s, t, exiting, i).Valid()
    ensures Shield(s, t, exiting, i + 1) == ShieldOne(Shield(s, t, exiting, i), t, exiting, i)
  {
  }

  function Protect(s: State, t: int, exiting: bool): State
    requires s.Valid()
  {
    Shield(s, t, exiting, Reach(s))
  }

  /** The scheduler names the next thread, then protects the pages of the previous one. */
  function Switch(s: State, next: int, exiting: bool): State
    requires s.Valid() && next != 0
  {
    Protect(s.(currThread := next), s.currThread, exiting)
  }

  /** The table set up by `buildKernalSpace`: everything free, nothing accessible. */
  ghost predicate Initial(s: State) {
    && s.Valid()
    && s.hand == 0
    && (forall i :: 0 <= i < |s.nodes| ==> s.nodes[i] == PageNode(0, -1, false))
    && (forall i :: 0 <= i < |s.open| ==> !s.open[i])
  }
}
