/** The paged memory as the program has it: arrays updated in place, against the functions of PageTable. */
module Pager {
  import opened PageTable
  import opened Eviction

  /** What a fault address leads to. */
  datatype Site =
    | OutsideThreads      // not in the thread region: a real segmentation fault
    | OverBudget          // the thread has not been given that many pages
    | AtEnd               // the first byte after the region, which the range check lets through
    | InPage(page: nat)

  class PagedMemory {
    const nodes: array<PageNode>
    const ram: array<Page>
    const swapFile: array<Page>
    const open: array<bool>
    var freeListPosition: nat
    var currThread: int

    ghost predicate Valid()
      reads this, nodes, ram, swapFile, open
    {
      && ram != swapFile
      && Table().Valid()
    }

    ghost function Table(): State
      reads this, nodes, ram, swapFile, open
    {
      State(nodes[..], ram[..], swapFile[..], open[..], freeListPosition, currThread)
    }

    /** `buildKernalSpace`: frames and slots free, all frames protected. */
    constructor (pages: array<Page>, disk: array<Page>)
      requires pages != disk && pages.Length > 0
      ensures Valid() && Initial(Table())
      ensures ram == pages && swapFile == disk && fresh(nodes) && fresh(open)
      ensures currThread == 1
    {
      nodes := new PageNode[pages.Length + disk.Length];
      ram := pages;
      swapFile := disk;
      open := new bool[pages.Length];
      freeListPosition := 0;
      currThread := 1;
      new;
      for i := 0 to nodes.Length
        modifies nodes
        invariant forall k :: 0 <= k < i ==> nodes[k] == PageNode(0, -1, false)
      {
        nodes[i] := PageNode(0, -1, false);
      }
      for i := 0 to open.Length
        modifies open
        invariant forall k :: 0 <= k < i ==> !open[k]
      {
        open[i] := false;
      }
    }

    /** Exchange a frame with a slot of the swap file. */
    method SwapFileGrab(out: nat, k: nat)
      requires Valid() && out < ram.Length && k < swapFile.Length
      modifies nodes, ram, swapFile, open
      ensures Valid() && Table() == PageTable.SwapFileGrab(old(Table()), out, k)
    {
      var temp := swapFile[k];
      open[out] := true;
      swapFile[k] := ram[out];
      ram[out] := temp;
      var swappedOut := ram.Length + k;
      var temp2 := nodes[swappedOut].threadid;
      nodes[swappedOut] := nodes[swappedOut].(retAddr := out, threadid := nodes[out].threadid);
      nodes[out] := nodes[out].(retAddr := -1, threadid := temp2);
    }

    /** Exchange two frames. */
    method SwapPage(out: nat, inn: nat, kind: int)
      requires Valid() && out < ram.Length && inn < ram.Length
      modifies nodes, ram, open
      ensures Valid() && Table() == PageTable.SwapPage(old(Table()), out, inn, kind == 1)
    {
      ghost var s := Table();
      open[out] := true;
      open[inn] := true;
      var temp := ram[out];
      ram[out] := ram[inn];
      ram[inn] := temp;
      var temp1 := nodes[inn].threadid;
      var temp2 := nodes[inn].referenceBit;
      var temp3 := nodes[inn].retAddr;
      nodes[inn] := PageNode(nodes[out].threadid, out, nodes[out].referenceBit);
      nodes[out] := PageNode(temp1, if kind == 1 then temp3 else -1, temp2);
      open[inn] := false;
      assert open[..] == s.open[out := true][inn := false];
      assert ram[..] == s.ram[inn := s.ram[out]][out := s.ram[inn]];
    }

    lemma Sizes()
      requires Valid()
      ensures nodes.Length == ram.Length + swapFile.Length && open.Length == ram.Length
    {
    }

    method Advance()
      requires Valid()
      modifies `freeListPosition
      ensures Valid() && Table() == old(Table()).(hand := old(Table().After(freeListPosition)))
    {
      if freeListPosition == ram.Length - 1 {
        freeListPosition := 0;
      } else {
        freeListPosition := freeListPosition + 1;
      }
    }

    /** One round of the eviction loop: skip one frame of the running thread, then clear a bit or stop. */
    method EvictionRound() returns (found: bool, victim: nat)
      requires Valid()
      modifies nodes, `freeListPosition
      ensures Valid()
      ensures var s := old(Table());
              var h := Candidate(s);
              && found == !s.nodes[h].referenceBit
              && victim == h
              && Table() == s.(nodes := if found then s.nodes else ClearBit(s.nodes, h), hand := s.After(h))
    {
      if nodes[freeListPosition].threadid == currThread {
        Advance();
      }
      victim := freeListPosition;
      found := !nodes[freeListPosition].referenceBit;
      if !found {
        nodes[freeListPosition] := nodes[freeListPosition].(referenceBit := false);
      }
      Advance();
    }

    /** Second-chance eviction, by the hand that goes round the frames. */
    method EvictPage() returns (victim: nat, ghost rounds: nat)
      requires Valid()
      modifies nodes, `freeListPosition
      ensures Valid() && (Table(), victim, rounds) == Evict(old(Table()))
    {
      var found := false;
      rounds := 0;
      victim := 0;
      while !found
        invariant Valid()
        invariant if found then (Table(), victim, rounds) == Evict(old(Table())) else
                  (Evict(Table()).0, Evict(Table()).1, Evict(Table()).2 + rounds) == Evict(old(Table()))
        decreases !found, SetBits(nodes[..ram.Length])
      {
        ghost var s := Table();
        found, victim := EvictionRound();
        rounds := rounds + 1;
        if !found {
          ClearingLowersSetBits(s.nodes[..|s.ram|], victim);
          assert nodes[..ram.Length] == ClearBit(s.nodes[..|s.ram|], victim);
        }
      }
    }

    /** The search loops of the fault handler. */
    method Find(lo: nat, hi: nat, w: Want) returns (r: nat)
      requires lo <= hi <= nodes.Length
      ensures r == First(nodes[..], lo, hi, w)
    {
      r := lo;
      while r < hi
        invariant lo <= r <= hi
        invariant forall k :: lo <= k < r ==> !Matches(nodes[k], w)
      {
        if Matches(nodes[r], w) {
          FirstIs(nodes[..], lo, hi, w, r);
          return;
        }
        r := r + 1;
      }
      FirstIs(nodes[..], lo, hi, w, r);
    }

    /** The last part of both eviction paths. */
    method BringIn(v: nat, victim: nat, k: nat)
      requires Valid() && v < ram.Length && victim < ram.Length && k < swapFile.Length
      modifies nodes, ram, swapFile, open
      ensures Valid() && Table() == PageTable.BringIn(old(Table()), v, victim, k)
    {
      if v == victim {
        SwapFileGrab(v, k);
      } else {
        SwapPage(v, victim, 1);
        SwapFileGrab(v, k);
      }
    }

    method SetReferenceBit(i: nat)
      requires Valid() && i < nodes.Length
      modifies nodes
      ensures Valid() && Table() == Touch(old(Table()), i)
    {
      nodes[i] := nodes[i].(referenceBit := true);
    }

    method TakeOver(i: nat)
      requires Valid() && i < nodes.Length
      modifies nodes
      ensures Valid() && Table() == Claim(old(Table()), i)
    {
      nodes[i] := nodes[i].(threadid := currThread);
      nodes[i] := nodes[i].(referenceBit := true);
    }

    method FetchSlot(v: nat, k: nat)
      requires Valid() && v < ram.Length && k < swapFile.Length
      modifies nodes, ram, swapFile, open, `freeListPosition
      ensures Valid() && Table() == PageTable.FetchSlot(old(Table()), v, k)
    {
      var offsetToEvict, _ := EvictPage();
      BringIn(v, offsetToEvict, k);
    }

    /** The page is in slot k of the swap file. */
    method FaultInSwap(v: nat, k: nat)
      requires Valid() && v < ram.Length && k < swapFile.Length
      modifies nodes, ram, swapFile, open, `freeListPosition
      ensures Valid() && Table() == Take(old(Table()), v, InSwap(k))
    {
      hide Touch, PageTable.FetchSlot, State.Valid;
      Sizes();
      SetReferenceBit(ram.Length + k);
      FetchSlot(v, k);
    }

    method ClaimAndFill(v: nat, victim: nat, k: nat)
      requires Valid() && v < ram.Length && victim < ram.Length && k < swapFile.Length
      modifies nodes, ram, swapFile, open
      ensures Valid() && Table() == ClaimSlot(old(Table()), v, victim, k)
    {
      hide Claim, PageTable.BringIn, State.Valid;
      Sizes();
      TakeOver(ram.Length + k);
      BringIn(v, victim, k);
    }

    method SwapToFreeSlot(v: nat, victim: nat)
      requires Valid() && v < ram.Length && victim < ram.Length
      modifies nodes, ram, swapFile, open
      ensures Valid()
      ensures var s := old(Table());
              Table() == match SwapPath(s) case ToSwap(k) => ClaimSlot(s, v, victim, k) case _ => s
    {
      hide ClaimSlot, State.Valid;
      Sizes();
      var i := Find(ram.Length, nodes.Length, FreePlace);
      if i < nodes.Length {
        ClaimAndFill(v, victim, i - ram.Length);
      }
    }

    /** No frame is free: a victim goes to the first free slot, if there is one. */
    method FaultToSwap(v: nat)
      requires Valid() && v < ram.Length
      modifies nodes, ram, swapFile, open, `freeListPosition
      ensures Valid() && Table() == Take(old(Table()), v, SwapPath(old(Table())))
    {
      TakeSwapPath(Table(), v);
      var offsetToEvict, _ := EvictPage();
      SwapToFreeSlot(v, offsetToEvict);
    }

    lemma TakeSwapPath(s: State, v: nat)
      requires s.Valid() && v < |s.ram|
      ensures var (s1, f, _) := Evict(s);
              Take(s, v, SwapPath(s)) == match SwapPath(s1) case ToSwap(k) => ClaimSlot(s1, v, f, k) case _ => s1
    {
      EvictKeepsSwapPath(s);
      var p := SwapPath(s);
      if p.ToSwap? {
        assert Take(s, v, p) == ClaimSlot(Evict(s).0, v, Evict(s).1, p.slot);
      } else {
        assert Take(s, v, p) == Evict(s).0;
      }
    }

    lemma EvictKeepsSwapPath(s: State)
      requires s.Valid()
      ensures SwapPath(Evict(s).0) == SwapPath(s)
    {
      EvictionRounds(s);
      FirstIs(Evict(s).0.nodes, |s.ram|, |s.nodes|, FreePlace, First(s.nodes, |s.ram|, |s.nodes|, FreePlace));
    }

    method OpenHome(v: nat)
      requires Valid() && v < ram.Length
      modifies nodes, open
      ensures Valid() && Table() == Take(old(Table()), v, AlreadyHome)
    {
      SetReferenceBit(v);
      open[v] := true;
    }

    method FaultDisplaced(v: nat, i: nat)
      requires Valid() && v < ram.Length && i < ram.Length
      modifies nodes, ram, open
      ensures Valid() && Table() == Take(old(Table()), v, Displaced(i))
    {
      SetReferenceBit(i);
      SwapPage(v, i, 0);
    }

    method FaultFreeFrame(v: nat)
      requires Valid() && v < ram.Length
      modifies nodes, open
      ensures Valid() && Table() == Take(old(Table()), v, FreeFrame)
    {
      open[v] := true;
      TakeOver(v);
    }

    method FaultEmptyElsewhere(v: nat, i: nat)
      requires Valid() && v < ram.Length && i < ram.Length
      modifies nodes, ram, open
      ensures Valid() && Table() == Take(old(Table()), v, EmptyElsewhere(i))
    {
      TakeOver(i);
      SwapPage(v, i, 0);
    }

    /** The searches of the handler.  The answer Exhausted says that a victim is needed; whether
        the swap file has room for it is asked only after the victim is chosen. */
    method Search(v: nat) returns (p: Path)
      requires Valid() && v < ram.Length
      ensures PathOf(Table(), v) == if p.Exhausted? then SwapPath(Table()) else p
    {
      if nodes[v].threadid == currThread && nodes[v].retAddr == -1 {
        return AlreadyHome;
      }
      var i := Find(0, ram.Length, PageOf(currThread, v));
      if i < ram.Length {
        return Displaced(i);
      }
      i := Find(ram.Length, nodes.Length, PageOf(currThread, v));
      if i < nodes.Length {
        return InSwap(i - ram.Length);
      }
      if nodes[v].threadid == 0 {
        return FreeFrame;
      }
      i := Find(0, ram.Length, FreePlace);
      return if i < ram.Length then EmptyElsewhere(i) else Exhausted;
    }

    /** The fault handler from where it knows the page. */
    method PageFault(v: nat)
      requires Valid() && v < ram.Length
      modifies nodes, ram, swapFile, open, `freeListPosition
      ensures Valid() && Table() == Fault(old(Table()), v)
    {
      var p := Search(v);
      match p
      case AlreadyHome => OpenHome(v);
      case Displaced(i) => FaultDisplaced(v, i);
      case InSwap(k) => FaultInSwap(v, k);
      case FreeFrame => FaultFreeFrame(v);
      case EmptyElsewhere(i) => FaultEmptyElsewhere(v, i);
      case _ => FaultToSwap(v);
    }

    /** One node of the walk of `protectPages`. */
    method ShieldFrame(i: nat, threadID: int, exiting: bool)
      requires Valid() && i < ram.Length
      modifies nodes, ram, open
      ensures Valid() && Table() == ShieldOne(old(Table()), threadID, exiting, i)
    {
      if nodes[i].threadid == threadID {
        open[i] := true;
        if exiting {
          ram[i] := Zeroed(ram[i]);
          nodes[i] := nodes[i].(threadid := 0, retAddr := -1);
        }
        open[i] := false;
      }
    }

    /** Close the pages of a thread that the walk reaches; on exit wipe and free them. */
    method ProtectPages(threadID: int, exiting: bool)
      requires Valid() && threadID != 0
      modifies nodes, ram, open
      ensures Valid() && Table() == Protect(old(Table()), threadID, exiting)
    {
      ghost var s := Table();
      ShieldNone(s, threadID, exiting);
      var i := 0;
      while i < ram.Length && nodes[i].threadid != 0
        invariant 0 <= i <= ram.Length == |s.ram| && nodes.Length == |s.nodes|
        invariant Valid() && Table() == Shield(s, threadID, exiting, i)
        invariant forall k :: i <= k < nodes.Length ==> nodes[k] == s.nodes[k]
        invariant forall k :: 0 <= k < i ==> !Matches(s.nodes[k], FreePlace)
      {
        ShieldStep(s, threadID, exiting, i);
        ShieldFrame(i, threadID, exiting);
        i := i + 1;
      }
      FirstIs(s.nodes, 0, |s.ram|, FreePlace, i);
    }

    /** A dispatch: the next thread is named first, then the pages of the previous one are protected. */
    method SwitchTo(next: int, exiting: bool)
      requires Valid() && next != 0
      modifies nodes, ram, open, `currThread
      ensures Valid() && Table() == Switch(old(Table()), next, exiting)
    {
      var previous := currThread;
      currThread := next;
      ProtectPages(previous, exiting);
    }
  }

  /** How the handler finds the page of a fault, `offset` bytes after the start of the thread
      region: it walks the page starts until one lies beyond, and then checks the thread's count. */
  method Locate(offset: int, pageSize: nat, frames: nat, pageCount: nat) returns (r: Site)
    requires pageSize > 0 && frames > 0
    ensures r == OutsideThreads <==> offset < 0 || offset > frames * pageSize
    ensures 0 <= offset < frames * pageSize ==>
              r == if offset / pageSize < pageCount then InPage(offset / pageSize) else OverBudget
    ensures offset == frames * pageSize ==> r == if frames < pageCount then AtEnd else OverBudget
  {
    if offset < 0 || offset > frames * pageSize {
      return OutsideThreads;
    }
    var i := 0;
    while i <= frames
      invariant 0 <= i <= frames + 1
      invariant i > 0 ==> (i - 1) * pageSize <= offset
    {
      if i * pageSize > offset {
        break;
      }
      i := i + 1;
    }
    if i <= frames {
      PageOfOffset(offset, pageSize, i);
      assert offset < frames * pageSize by { assert i * pageSize <= frames * pageSize; }
    } else {
      assert (i - 1) * pageSize == frames * pageSize;
    }
    if pageCount < i {
      return OverBudget;
    }
    return if i <= frames then InPage(i - 1) else AtEnd;
  }

  lemma PageOfOffset(offset: nat, pageSize: nat, i: nat)
    requires pageSize > 0 && i > 0 && (i - 1) * pageSize <= offset < i * pageSize
    ensures offset / pageSize == i - 1
  {
    var q, r := offset / pageSize, offset % pageSize;
    assert offset == q * pageSize + r;
    assert q < i - 1 ==> (q + 1) * pageSize <= (i - 1) * pageSize;
    assert q > i - 1 ==> q * pageSize >= i * pageSize;
  }
}
