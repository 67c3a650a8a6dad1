/** The declared repairs of the paged memory.  In the fault handler a page that is moved keeps its
    own home, and a claimed frame counts as home: then every fault is transparent.  At a switch the
    walk goes through all nodes: then every switch isolates, and every exit forgets. */
module Repairs {
  import opened PageTable
  import opened Transparency
  import opened PagingLaws

  function SetHome(nodes: seq<PageNode>, i: nat, h: int): seq<PageNode>
    requires i < |nodes|
  {
    nodes[i := nodes[i].(retAddr := h)]
  }

  /** What path p leaves in the nodes, mended: the pages from v and f keep their homes. */
  function Mended(s: State, r: State, v: nat, p: Path, f: nat, x: nat): (m: State)
    requires s.Valid() && v < |s.ram| && f < |s.ram| && x < |s.nodes| && Reshapes(s, r)
    ensures Reshapes(s, m) && m.open == r.open
  {
    match p
    case AlreadyHome => r
    case Exhausted => r
    case FreeFrame => r.(nodes := SetHome(r.nodes, v, -1))
    case _ => r.(nodes := SetHome(SetHome(SetHome(r.nodes, f, s.CellAt(v).home), x, s.CellAt(f).home), v, -1))
  }

  /** The fault handler with the repair. */
  function CarryingFault(s: State, v: nat): (r: State)
    requires s.Valid() && v < |s.ram|
    ensures Reshapes(s, r)
  {
    var p := PathOf(s, v);
    Mended(s, Fault(s, v), v, p, Victim(s, v, p), Source(s, v, p))
  }

  /** The cells of v, f and x change places, and what comes to v becomes page v of thread t. */
  function Carried(c: seq<Cell>, v: nat, f: nat, x: nat, t: int): seq<Cell>
    requires v < |c| && f < |c| && x < |c|
  {
    c[f := c[v]][x := c[f]][v := Cell(t, v, c[x].bytes)]
  }

  lemma MendedCells(s: State, r: State, v: nat, p: Path, f: nat, x: nat, t: int)
    requires s.Valid() && v < |s.ram| && f < |s.ram| && x < |s.nodes| && Reshapes(s, r)
    requires Effect(s.Cells(), r.Cells(), v, p, f, x, t) && (p.FreeFrame? ==> f == v)
    ensures var c, m := s.Cells(), Mended(s, r, v, p, f, x).Cells();
            if p.AlreadyHome? || p.Exhausted? then m == c else m == Carried(c, v, f, x, t)
  {
    var c, m := s.Cells(), Mended(s, r, v, p, f, x);
    if !p.AlreadyHome? && !p.Exhausted? {
      forall i | 0 <= i < |c| ensures m.CellAt(i) == Carried(c, v, f, x, t)[i] {
        MendedAt(s, r, v, p, f, x, i);
        MovedAt(c, r.Cells(), v, p, f, x, t, i);
      }
    }
  }

  /** The repair changes nothing but homes. */
  lemma MendedAt(s: State, r: State, v: nat, p: Path, f: nat, x: nat, i: nat)
    requires s.Valid() && v < |s.ram| && f < |s.ram| && x < |s.nodes| && Reshapes(s, r) && i < |s.nodes|
    requires !p.AlreadyHome? && !p.Exhausted? && (p.FreeFrame? ==> x == v && f == v)
    ensures Mended(s, r, v, p, f, x).CellAt(i) ==
              r.Cells()[i].(home := if i == v then v else if p.FreeFrame? then r.Cells()[i].home
                                    else if i == x then s.Cells()[f].home
                                    else if i == f then s.Cells()[v].home else r.Cells()[i].home)
  {
  }

  lemma MovedAt(c: seq<Cell>, c': seq<Cell>, v: nat, p: Path, f: nat, x: nat, t: int, i: nat)
    requires Effect(c, c', v, p, f, x, t) && |c'| == |c| && i < |c| && !p.AlreadyHome? && !p.Exhausted?
    requires p.FreeFrame? ==> f == v
    ensures Carried(c, v, f, x, t)[i] ==
              c'[i].(home := if i == v then v else if p.FreeFrame? then c'[i].home
                             else if i == x then c[f].home else if i == f then c[v].home else c'[i].home)
  {
  }

  lemma ExchangeKeepsMemory(c: seq<Cell>, i: nat, j: nat)
    requires Distinct(c) && i < |c| && j < |c|
    ensures var c' := c[i := c[j]][j := c[i]];
            Distinct(c') && Memory(c') == Memory(c)
  {
    var c' := c[i := c[j]][j := c[i]];
    assert Distinct(c');
    forall l | l in Memory(c) ensures l in Memory(c') && Memory(c')[l] == Memory(c)[l] {
      var k := PlaceOf(c, l);
      MemoryAt(c', if k == i then j else if k == j then i else k);
    }
    forall l | l in Memory(c') ensures l in Memory(c) {
      var k := PlaceOf(c', l);
      MemoryAt(c, if k == i then j else if k == j then i else k);
    }
  }

  lemma CarriedKeepsMemory(c: seq<Cell>, v: nat, f: nat, x: nat, t: int)
    requires Distinct(c) && v < |c| && f < |c| && x < |c| && t != 0 && (f != v ==> f != x && x != v)
    requires LabelOf(c[x]) == Label(t, v) || (c[x].owner == 0 && forall i :: 0 <= i < |c| ==> LabelOf(c[i]) != Label(t, v))
    ensures var c', l := Carried(c, v, f, x, t), Label(t, v);
            && Distinct(c')
            && (c[x].owner == 0 ==> l !in Memory(c))
            && Memory(c') == (if c[x].owner == 0 then Memory(c)[l := c[x].bytes] else Memory(c))
            && l in Memory(c')
  {
    var c1 := c[v := c[f]][f := c[v]];
    var c2 := c1[v := c1[x]][x := c1[v]];
    ExchangeKeepsMemory(c, v, f);
    ExchangeKeepsMemory(c1, v, x);
    assert Carried(c, v, f, x, t) == c2[v := Cell(t, v, c[x].bytes)];
    assert c2[v] == c[x];
    if c[x].owner == 0 {
      assert forall i :: 0 <= i < |c2| ==> LabelOf(c2[i]) != Label(t, v);
      FilledPlace(c2, v, Cell(t, v, c[x].bytes));
    } else {
      assert c2[v := Cell(t, v, c[x].bytes)] == c2;
      MemoryAt(c2, v);
    }
  }

  /** A free place that gets a page not yet there. */
  lemma FilledPlace(c: seq<Cell>, v: nat, n: Cell)
    requires Distinct(c) && v < |c| && c[v].owner == 0 && n.owner != 0
    requires forall i :: 0 <= i < |c| ==> LabelOf(c[i]) != LabelOf(n)
    ensures var c' := c[v := n];
            Distinct(c') && LabelOf(n) !in Memory(c) && Memory(c') == Memory(c)[LabelOf(n) := n.bytes]
  {
    var c', l := c[v := n], LabelOf(n);
    assert Distinct(c');
    MemoryAt(c', v);
    forall k | k in Memory(c) ensures k in Memory(c') && k != l && Memory(c')[k] == Memory(c)[k] {
      var i := PlaceOf(c, k);
      MemoryAt(c', i);
    }
    forall k | k in Memory(c') && k != l ensures k in Memory(c) {
      var i := PlaceOf(c', k);
      MemoryAt(c, i);
    }
  }

  /** With the repair every fault, on every path and in every state, is transparent: no page is
      lost, moved between threads or changed, and at most page v of the running thread is added. */
  lemma CarryingFaultKeepsMemory(s: State, v: nat)
    requires s.Valid() && v < |s.ram| && Distinct(s.Cells())
    ensures var p := PathOf(s, v);
            var c, c', l := s.Cells(), CarryingFault(s, v).Cells(), Label(s.currThread, v);
            && Distinct(c')
            && (Adds(p) ==> l !in Memory(c))
            && Memory(c') == (if Adds(p) then Memory(c)[l := c[Source(s, v, p)].bytes] else Memory(c))
            && (!p.Exhausted? ==> l in Memory(c'))
            && Transparent(c, c', l)
  {
    var p := PathOf(s, v);
    var f, x, c, t := Victim(s, v, p), Source(s, v, p), s.Cells(), s.currThread;
    FaultEffect(s, v);
    MendedCells(s, Fault(s, v), v, p, f, x, t);
    if p.AlreadyHome? {
      MemoryAt(c, v);
    } else if !p.Exhausted? {
      CarriedKeepsMemory(c, v, f, x, t);
      if !Adds(p) { MemoryAt(c, x); }
    }
    GrownMemoryIsTransparent(c, CarryingFault(s, v).Cells(), Label(t, v), c[x].bytes);
  }

  /** And it leaves only pages of the running thread open, each at its home. */
  lemma CarryingFaultKeepsOpenAtHome(s: State, v: nat)
    requires s.Valid() && v < |s.ram| && OpenAtHome(s)
    ensures OpenAtHome(CarryingFault(s, v))
  {
    var p := PathOf(s, v);
    var f, x, c, t := Victim(s, v, p), Source(s, v, p), s.Cells(), s.currThread;
    hide Effect, OpenEffect, State.Cells, CarryingFault, Fault, PathOf, Victim, Source, Carried;
    FaultEffect(s, v);
    FaultOpens(s, v);
    MendedCells(s, Fault(s, v), v, p, f, x, t);
    CarriedKeepsOpen(c, Fault(s, v).Cells(), s.open, Fault(s, v).open, v, p, f, x, t);
    CarryingFaultIs(s, v);
  }

  lemma CarryingFaultIs(s: State, v: nat)
    requires s.Valid() && v < |s.ram|
    ensures var p, m := PathOf(s, v), CarryingFault(s, v);
            && m == Mended(s, Fault(s, v), v, p, Victim(s, v, p), Source(s, v, p))
            && m.open == Fault(s, v).open && m.currThread == s.currThread
  {
  }

  lemma CarriedKeepsOpen(c: seq<Cell>, c': seq<Cell>, o: seq<bool>, o': seq<bool>, v: nat, p: Path, f: nat, x: nat, t: int)
    requires Effect(c, c', v, p, f, x, t) && OpenEffect(o, o', v, p, f, x) && OpenAreHomeOf(c, o, t)
    ensures OpenAreHomeOf(if p.AlreadyHome? || p.Exhausted? then c else Carried(c, v, f, x, t), o', t)
  {
  }

  // ---------- the walk at a switch ----------

  function FreeSlots(nodes: seq<PageNode>, from: nat, t: int): seq<PageNode> {
    seq(|nodes|, i requires 0 <= i < |nodes| =>
      if i >= from && nodes[i].threadid == t then PageNode(0, -1, nodes[i].referenceBit) else nodes[i])
  }

  function WipeSlots(s: State, t: int): seq<Page>
    requires s.Valid()
  {
    seq(|s.swapFile|, k requires 0 <= k < |s.swapFile| =>
      if s.nodes[|s.ram| + k].threadid == t then Zeroed(s.swapFile[k]) else s.swapFile[k])
  }

  /** The switch with the repair: no free frame stops it, and on exit slots are wiped and freed as well. */
  function WideSwitch(s: State, next: int, exiting: bool): (r: State)
    requires s.Valid() && next != 0
  {
    var r := Shield(s.(currThread := next), s.currThread, exiting, |s.ram|);
    if exiting then r.(nodes := FreeSlots(r.nodes, |s.ram|, s.currThread), swapFile := WipeSlots(s, s.currThread)) else r
  }

  /** Cells c' are cells c with some cells of thread t, those below r, made free. */
  ghost predicate Wiped(c: seq<Cell>, c': seq<Cell>, r: nat, t: int) {
    && t != 0
    && |c'| == |c|
    && forall i :: 0 <= i < |c| ==> if i < r && c[i].owner == t then c'[i].owner == 0 else c'[i] == c[i]
  }

  /** The repaired switch closes every frame of the thread that leaves; on exit nothing of it stays. */
  lemma WideSwitchIsolates(s: State, next: int, exiting: bool)
    requires s.Valid() && next != 0
    ensures var r := WideSwitch(s, next, exiting);
            && r.Valid() && r.currThread == next && |r.ram| == |s.ram| && |r.nodes| == |s.nodes|
            && (forall i :: 0 <= i < |r.open| && r.open[i] ==> s.open[i] && s.Cells()[i].owner != s.currThread)
            && (exiting ==> Wiped(s.Cells(), r.Cells(), |s.nodes|, s.currThread))
            && (!exiting ==> r.Cells() == s.Cells())
  {
    var r := WideSwitch(s, next, exiting);
    forall i | 0 <= i < |s.nodes|
      ensures r.CellAt(i) == s.CellAt(i) || (exiting && s.nodes[i].threadid == s.currThread && r.CellAt(i).owner == 0)
      ensures exiting && s.nodes[i].threadid == s.currThread ==> r.CellAt(i).owner == 0
    {
    }
  }
}
