/** The declared repairs of the paged memory, made in place: the handler and the switch on arrays. */
module MendedPager {
  import opened PageTable
  import opened Eviction
  import opened Repairs
  import opened Transparency
  import opened Pager

  /** The home of the page in place i. */
  method HomeOf(m: PagedMemory, i: nat) returns (h: int)
    requires m.Valid() && i < m.ram.Length
    ensures h == m.Table().CellAt(i).home && 0 <= h < m.ram.Length
  {
    h := if m.nodes[i].retAddr == -1 then i else m.nodes[i].retAddr;
  }

  method PutHome(m: PagedMemory, i: nat, h: int)
    requires m.Valid() && i < m.nodes.Length && -1 <= h < m.ram.Length
    modifies m.nodes
    ensures m.Valid() && m.Table() == old(m.Table()).(nodes := SetHome(old(m.Table()).nodes, i, h))
  {
    m.nodes[i] := m.nodes[i].(retAddr := h);
  }

  /** The pages that came to f and x keep the homes they had, and the one in v is home. */
  method PutHomes(m: PagedMemory, v: nat, f: nat, x: nat, hv: int, hf: int)
    requires m.Valid() && v < m.ram.Length && f < m.ram.Length && x < m.nodes.Length
    requires 0 <= hv < m.ram.Length && 0 <= hf < m.ram.Length
    modifies m.nodes
    ensures m.Valid()
    ensures var s := old(m.Table()); m.Table() == s.(nodes := SetHome(SetHome(SetHome(s.nodes, f, hv), x, hf), v, -1))
  {
    hide SetHome, State.Valid;
    m.Sizes();
    PutHome(m, f, hv);
    PutHome(m, x, hf);
    PutHome(m, v, -1);
  }

  /** What the paths that move pages come to, mended. */
  ghost predicate IsMended(s: State, r: State, v: nat, p: Path)
    requires s.Valid() && v < |s.ram| && InRange(s, p)
  {
    r == Repairs.Mended(s, Take(s, v, p), v, p, Victim(s, v, p), Source(s, v, p))
  }

  /** A page from another frame, displaced or free, comes to v. */
  method FromFrame(m: PagedMemory, v: nat, i: nat, displaced: bool)
    requires m.Valid() && v < m.ram.Length && i < m.ram.Length
    modifies m.nodes, m.ram, m.open
    ensures m.Valid() && IsMended(old(m.Table()), m.Table(), v, if displaced then Displaced(i) else EmptyElsewhere(i))
  {
    hide Take, SetHome, State.Valid;
    m.Sizes();
    var hv := HomeOf(m, v);
    if displaced {
      m.FaultDisplaced(v, i);
    } else {
      m.FaultEmptyElsewhere(v, i);
    }
    PutHomes(m, v, v, i, hv, hv);
  }

  lemma EvictKeepsHomes(s: State, i: nat)
    requires s.Valid() && i < |s.nodes|
    ensures Evict(s).0.CellAt(i).home == s.CellAt(i).home
  {
    EvictionRounds(s);
  }

  /** The page comes from slot k, and a victim takes its place. */
  method FromSlot(m: PagedMemory, v: nat, k: nat)
    requires m.Valid() && v < m.ram.Length && k < m.swapFile.Length
    modifies m.nodes, m.ram, m.swapFile, m.open, m`freeListPosition
    ensures m.Valid() && IsMended(old(m.Table()), m.Table(), v, InSwap(k))
  {
    hide Evict, SetHome, State.Valid, PageTable.BringIn;
    m.Sizes();
    ghost var s := m.Table();
    m.SetReferenceBit(m.ram.Length + k);
    ghost var s1 := m.Table();
    var f, _ := m.EvictPage();
    EvictKeepsHomes(s1, v);
    EvictKeepsHomes(s1, f);
    var hv := HomeOf(m, v);
    var hf := HomeOf(m, f);
    m.BringIn(v, f, k);
    PutHomes(m, v, f, m.ram.Length + k, hv, hf);
  }

  /** A victim goes to the first free slot, if there is one. */
  method ToFreeSlot(m: PagedMemory, v: nat)
    requires m.Valid() && v < m.ram.Length
    modifies m.nodes, m.ram, m.swapFile, m.open, m`freeListPosition
    ensures m.Valid() && IsMended(old(m.Table()), m.Table(), v, SwapPath(old(m.Table())))
  {
    hide Evict, SetHome, State.Valid, ClaimSlot, Take;
    m.Sizes();
    ghost var s := m.Table();
    m.TakeSwapPath(s, v);
    m.EvictKeepsSwapPath(s);
    var f, _ := m.EvictPage();
    EvictKeepsHomes(s, v);
    EvictKeepsHomes(s, f);
    var i := m.Find(m.ram.Length, m.nodes.Length, FreePlace);
    if i < m.nodes.Length {
      var hv := HomeOf(m, v);
      var hf := HomeOf(m, f);
      m.ClaimAndFill(v, f, i - m.ram.Length);
      PutHomes(m, v, f, i, hv, hf);
    }
  }

  method ClaimHome(m: PagedMemory, v: nat)
    requires m.Valid() && v < m.ram.Length
    modifies m.nodes, m.open
    ensures m.Valid() && IsMended(old(m.Table()), m.Table(), v, FreeFrame)
  {
    hide Take, SetHome, State.Valid;
    m.Sizes();
    m.FaultFreeFrame(v);
    PutHome(m, v, -1);
  }

  /** The mended handler in place. */
  method CarryingPageFault(m: PagedMemory, v: nat)
    requires m.Valid() && v < m.ram.Length
    modifies m.nodes, m.ram, m.swapFile, m.open, m`freeListPosition
    ensures m.Valid() && m.Table() == CarryingFault(old(m.Table()), v)
  {
    hide Take, SetHome, State.Valid, PathOf, Repairs.Mended, SwapPath;
    m.Sizes();
    ghost var s := m.Table();
    MendedAtHome(s, v);
    SwapPathIsLast(s, v);
    var p := m.Search(v);
    match p
    case AlreadyHome => m.OpenHome(v);
    case Displaced(i) => FromFrame(m, v, i, true);
    case InSwap(k) => FromSlot(m, v, k);
    case FreeFrame => ClaimHome(m, v);
    case EmptyElsewhere(i) => FromFrame(m, v, i, false);
    case _ => ToFreeSlot(m, v);
  }

  lemma SwapPathIsLast(s: State, v: nat)
    requires s.Valid() && v < |s.ram|
    ensures PathOf(s, v).ToSwap? || PathOf(s, v).Exhausted? ==> PathOf(s, v) == SwapPath(s)
  {
  }

  lemma MendedAtHome(s: State, v: nat)
    requires s.Valid() && v < |s.ram|
    ensures IsMended(s, Take(s, v, AlreadyHome), v, AlreadyHome)
  {
  }

  // ---------- the walk ----------

  /** The walk of the mended switch, through all frames, and on exit through all slots. */
  method WideSwitchTo(m: PagedMemory, next: int, exiting: bool)
    requires m.Valid() && next != 0
    modifies m.nodes, m.ram, m.swapFile, m.open, m`currThread
    ensures m.Valid() && m.Table() == WideSwitch(old(m.Table()), next, exiting)
  {
    ghost var s := m.Table();
    var previous := m.currThread;
    m.currThread := next;
    CloseAll(m, previous, exiting);
    if exiting {
      ghost var r := m.Table();
      EmptySlots(m, previous);
      assert WipeSlots(r, previous) == WipeSlots(s, previous);
      ReleaseSlots(m, previous);
    }
  }

  method CloseAll(m: PagedMemory, threadID: int, exiting: bool)
    requires m.Valid() && threadID != 0
    modifies m.nodes, m.ram, m.open
    ensures m.Valid() && m.Table() == Shield(old(m.Table()), threadID, exiting, m.ram.Length)
  {
    hide Shield, ShieldOne, State.Valid;
    m.Sizes();
    ghost var s := m.Table();
    ShieldNone(s, threadID, exiting);
    var i := 0;
    while i < m.ram.Length
      invariant 0 <= i <= m.ram.Length == |s.ram|
      invariant m.Valid() && m.Table() == Shield(s, threadID, exiting, i)
    {
      ShieldStep(s, threadID, exiting, i);
      m.ShieldFrame(i, threadID, exiting);
      i := i + 1;
    }
  }

  method EmptySlots(m: PagedMemory, threadID: int)
    requires m.Valid() && threadID != 0
    modifies m.swapFile
    ensures m.Valid() && m.Table() == old(m.Table()).(swapFile := WipeSlots(old(m.Table()), threadID))
  {
    hide Zeroed, State.Valid;
    m.Sizes();
    ghost var s := m.Table();
    WipedSlots(s, threadID);
    var k := 0;
    while k < m.swapFile.Length
      invariant 0 <= k <= m.swapFile.Length
      invariant forall i :: 0 <= i < k ==> m.swapFile[i] == WipeSlots(s, threadID)[i]
      invariant forall i :: k <= i < m.swapFile.Length ==> m.swapFile[i] == s.swapFile[i]
    {
      if m.nodes[m.ram.Length + k].threadid == threadID {
        m.swapFile[k] := Zeroed(m.swapFile[k]);
      }
      k := k + 1;
    }
    assert m.swapFile[..] == WipeSlots(s, threadID);
    assert m.Table() == s.(swapFile := WipeSlots(s, threadID));
  }

  lemma WipedSlots(s: State, t: int)
    requires s.Valid()
    ensures s.(swapFile := WipeSlots(s, t)).Valid()
  {
  }

  method ReleaseSlots(m: PagedMemory, threadID: int)
    requires m.Valid() && threadID != 0
    modifies m.nodes
    ensures m.Valid() && m.Table() == old(m.Table()).(nodes := FreeSlots(old(m.Table()).nodes, m.ram.Length, threadID))
  {
    ghost var was := m.nodes[..];
    var i := m.ram.Length;
    while i < m.nodes.Length
      invariant m.ram.Length <= i <= m.nodes.Length && m.Valid()
      invariant forall k :: 0 <= k < i ==> m.nodes[k] == FreeSlots(was, m.ram.Length, threadID)[k]
      invariant forall k :: i <= k < m.nodes.Length ==> m.nodes[k] == was[k]
    {
      if m.nodes[i].threadid == threadID {
        m.nodes[i] := m.nodes[i].(threadid := 0, retAddr := -1);
      }
      i := i + 1;
    }
    assert m.nodes[..] == FreeSlots(was, m.ram.Length, threadID);
  }
}
