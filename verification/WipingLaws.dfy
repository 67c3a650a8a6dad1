/** What a switch does to bytes, nodes and protection, place by place; and that over whole runs
    free places hold zeros, so that a page given to a thread for the first time reads zero. */
module WipingLaws {
  import opened PageTable
  import opened Transparency
  import opened PagingLaws
  import opened PageBudget
  import opened Repairs
  import opened PagingRuns

  predicate AllZero(p: Page) {
    forall k :: 0 <= k < |p| ==> p[k] == 0
  }

  /** Frame i after the walk has closed it, and on exit wiped and freed it. */
  predicate Shut(s: State, r: State, exiting: bool, i: nat)
    requires s.Valid() && r.Valid() && |r.ram| == |s.ram| && i < |s.ram|
  {
    && !r.open[i] && r.nodes[i].referenceBit == s.nodes[i].referenceBit
    && if exiting then r.nodes[i].threadid == 0 && r.nodes[i].retAddr == -1 && |r.ram[i]| == |s.ram[i]| && AllZero(r.ram[i])
       else r.nodes[i] == s.nodes[i] && r.ram[i] == s.ram[i]
  }

  predicate Untouched(s: State, r: State, i: nat)
    requires s.Valid() && r.Valid() && |r.ram| == |s.ram| && i < |s.ram|
  {
    r.open[i] == s.open[i] && r.nodes[i] == s.nodes[i] && r.ram[i] == s.ram[i]
  }

  /** The walk comes to every frame before the first free one, and to no other.  It shuts the frames of
      thread t; on exit they hold only zeros.  Every other place is as it was. */
  lemma ProtectIs(s: State, t: int, exiting: bool) returns (n: nat)
    requires s.Valid()
    ensures n <= |s.ram| && (forall i :: 0 <= i < n ==> s.nodes[i].threadid != 0) && (n < |s.ram| ==> s.nodes[n].threadid == 0)
    ensures var r := Protect(s, t, exiting);
            && r.Valid() && |r.ram| == |s.ram| && r.swapFile == s.swapFile && r.hand == s.hand && r.currThread == s.currThread
            && (forall i :: 0 <= i < |s.ram| ==> if i < n && s.nodes[i].threadid == t then Shut(s, r, exiting, i) else Untouched(s, r, i))
            && (forall i :: |s.ram| <= i < |s.nodes| ==> r.nodes[i] == s.nodes[i])
  {
    n := Reach(s);
  }

  /** Slot i after an exit of its thread. */
  predicate Emptied(s: State, r: State, i: nat)
    requires s.Valid() && r.Valid() && |r.ram| == |s.ram| && |r.nodes| == |s.nodes| && |s.ram| <= i < |s.nodes|
  {
    var b, b' := s.swapFile[i - |s.ram|], r.swapFile[i - |s.ram|];
    r.nodes[i].threadid == 0 && r.nodes[i].retAddr == -1 && |b'| == |b| && AllZero(b')
  }

  predicate SlotUntouched(s: State, r: State, i: nat)
    requires s.Valid() && r.Valid() && |r.ram| == |s.ram| && |r.nodes| == |s.nodes| && |s.ram| <= i < |s.nodes|
  {
    r.nodes[i] == s.nodes[i] && r.swapFile[i - |s.ram|] == s.swapFile[i - |s.ram|]
  }

  /** The mended walk comes to every frame, and on exit to every slot. */
  lemma WideSwitchIs(s: State, next: int, exiting: bool)
    requires s.Valid() && next != 0
    ensures var r, t := WideSwitch(s, next, exiting), s.currThread;
            && r.Valid() && |r.ram| == |s.ram| && |r.nodes| == |s.nodes| && r.hand == s.hand && r.currThread == next
            && (forall i :: 0 <= i < |s.ram| ==> if s.nodes[i].threadid == t then Shut(s, r, exiting, i) else Untouched(s, r, i))
            && (forall i :: |s.ram| <= i < |s.nodes| ==>
                  if exiting && s.nodes[i].threadid == t then Emptied(s, r, i) else SlotUntouched(s, r, i))
  {
  }

  // ---------- free places hold zeros ----------

  ghost predicate FreeIsZero(c: seq<Cell>) {
    forall i :: 0 <= i < |c| && c[i].owner == 0 ==> AllZero(c[i].bytes)
  }

  lemma EffectKeepsZero(c: seq<Cell>, c': seq<Cell>, v: nat, p: Path, f: nat, x: nat, t: int)
    requires Effect(c, c', v, p, f, x, t) && FreeIsZero(c)
    ensures FreeIsZero(c') && FreeIsZero(if p.AlreadyHome? || p.Exhausted? || p.FreeFrame? then c' else Carried(c, v, f, x, t))
    ensures Adds(p) ==> AllZero(c[x].bytes)
  {
    hide AllZero;
  }

  /** A fault makes no place free, and the bytes it gives to a thread for the first time are zeros. */
  lemma FaultKeepsZero(s: State, v: nat, mended: bool)
    requires s.Valid() && v < |s.ram| && FreeIsZero(s.Cells())
    ensures var p := PathOf(s, v);
            && FreeIsZero(Handled(s, v, mended).Cells())
            && (Adds(p) ==> AllZero(s.Cells()[Source(s, v, p)].bytes))
  {
    hide Effect, Carried, AllZero, FreeIsZero, State.Cells, CarryingFault, Fault, PathOf, Victim, Source;
    var p := PathOf(s, v);
    var f, x := Victim(s, v, p), Source(s, v, p);
    FaultEffect(s, v);
    EffectKeepsZero(s.Cells(), Fault(s, v).Cells(), v, p, f, x, s.currThread);
    if mended {
      CarryingFaultIs(s, v);
      MendedZero(s, Fault(s, v), v, p, f, x);
    }
  }

  lemma MendedZero(s: State, r: State, v: nat, p: Path, f: nat, x: nat)
    requires s.Valid() && v < |s.ram| && f < |s.ram| && x < |s.nodes| && Reshapes(s, r)
    requires FreeIsZero(r.Cells())
    ensures var m := Mended(s, r, v, p, f, x); FreeIsZero(m.Cells()) && m.ram == r.ram
  {
    var m := Mended(s, r, v, p, f, x);
    assert forall i :: 0 <= i < |r.nodes| ==> m.CellAt(i).owner == r.Cells()[i].owner && m.CellAt(i).bytes == r.Cells()[i].bytes;
    hide AllZero, Mended;
  }

  lemma SwitchKeepsZero(s: State, next: int, exiting: bool)
    requires s.Valid() && next != 0 && FreeIsZero(s.Cells())
    ensures Switch(s, next, exiting).Valid() && FreeIsZero(Switch(s, next, exiting).Cells())
  {
    var n := ProtectIs(s.(currThread := next), s.currThread, exiting);
    hide AllZero, Protect;
    ZeroPlaceByPlace(s, Switch(s, next, exiting));
  }

  lemma ZeroPlaceByPlace(s: State, r: State)
    requires s.Valid() && r.Valid() && |r.ram| == |s.ram| && |r.nodes| == |s.nodes| && FreeIsZero(s.Cells())
    requires forall i :: 0 <= i < |s.ram| ==> AllZero(r.ram[i]) || (r.nodes[i].threadid == s.nodes[i].threadid && r.ram[i] == s.ram[i])
    requires forall i :: |s.ram| <= i < |s.nodes| ==>
               var k := i - |s.ram|; AllZero(r.swapFile[k]) || (r.nodes[i].threadid == s.nodes[i].threadid && r.swapFile[k] == s.swapFile[k])
    ensures FreeIsZero(r.Cells())
  {
    hide AllZero;
    forall i | 0 <= i < |s.nodes| && r.Cells()[i].owner == 0 ensures AllZero(r.Cells()[i].bytes) {
      assert s.Cells()[i] == s.CellAt(i);
    }
  }

  lemma SlotsZeroOrSame(s: State, r: State, exiting: bool)
    requires s.Valid() && r.Valid() && |r.ram| == |s.ram| && |r.nodes| == |s.nodes|
    requires forall i :: |s.ram| <= i < |s.nodes| ==>
               if exiting && s.nodes[i].threadid == s.currThread then Emptied(s, r, i) else SlotUntouched(s, r, i)
    ensures forall i :: |s.ram| <= i < |s.nodes| ==>
              var k := i - |s.ram|; AllZero(r.swapFile[k]) || (r.nodes[i].threadid == s.nodes[i].threadid && r.swapFile[k] == s.swapFile[k])
  {
    hide AllZero;
  }

  lemma WideSwitchKeepsZero(s: State, next: int, exiting: bool)
    requires s.Valid() && next != 0 && FreeIsZero(s.Cells())
    ensures WideSwitch(s, next, exiting).Valid() && FreeIsZero(WideSwitch(s, next, exiting).Cells())
  {
    WideSwitchIs(s, next, exiting);
    var r := WideSwitch(s, next, exiting);
    hide WideSwitch, FreeIsZero, AllZero, State.Cells;
    forall i | 0 <= i < |s.ram|
      ensures AllZero(r.ram[i]) || (r.nodes[i].threadid == s.nodes[i].threadid && r.ram[i] == s.ram[i])
    {
      assert if s.nodes[i].threadid == s.currThread then Shut(s, r, exiting, i) else Untouched(s, r, i);
    }
    SlotsZeroOrSame(s, r, exiting);
    ZeroPlaceByPlace(s, r);
  }

  lemma StoreKeepsZero(s: State, v: nat, b: Page)
    requires s.Valid() && OpenAtHome(s) && FreeIsZero(s.Cells()) && v < |s.ram| && s.open[v]
    ensures FreeIsZero(s.(ram := s.ram[v := b]).Cells())
  {
    var r := s.(ram := s.ram[v := b]);
    assert s.Cells()[v].owner == s.currThread;
    forall i | 0 <= i < |s.nodes| && r.Cells()[i].owner == 0 ensures AllZero(r.Cells()[i].bytes) {
      assert s.Cells()[i] == s.CellAt(i);
    }
  }

  /** Every event keeps the free places zero, as written and mended. */
  lemma EventKeepsZero(y: System, e: Event)
    requires Invariant(y) && Asked(y, e) && FreeIsZero(y.table.Cells())
    ensures Next(y, e).table.Valid() && FreeIsZero(Next(y, e).table.Cells())
  {
    hide FreeIsZero, State.Cells, Switch, WideSwitch, Fault, CarryingFault;
    match e
    case FaultAt(v) => FaultKeepsZero(y.table, v, y.mended);
    case Store(v, b) => StoreKeepsZero(y.table, v, b);
    case SwitchTo(n) => if y.mended { WideSwitchKeepsZero(y.table, n, false); } else { SwitchKeepsZero(y.table, n, false); }
    case ExitTo(n) => if y.mended { WideSwitchKeepsZero(y.table, n, true); } else { SwitchKeepsZero(y.table, n, true); }
    case Charge(n) =>
  }

  lemma {:induction false} RunKeepsZero(y: System, es: seq<Event>)
    requires Invariant(y) && AllowedRun(y, es) && FreeIsZero(y.table.Cells())
    ensures FreeIsZero(Run(y, es).table.Cells())
    decreases es
  {
    if es != [] {
      EventRefines(y, es[0]);
      EventKeepsZero(y, es[0]);
      RunKeepsZero(Next(y, es[0]), es[1..]);
    }
  }

  lemma AddedPageIsZero(z: System, v: nat)
    requires Invariant(z) && Allowed(z, FaultAt(v)) && FreeIsZero(z.table.Cells())
    requires Label(z.table.currThread, v) !in Memory(z.table.Cells())
    ensures Invariant(Next(z, FaultAt(v)))
    ensures var m, l := View(Next(z, FaultAt(v))).memory, Label(z.table.currThread, v);
            l in m && AllZero(m[l])
  {
    hide AllZero, FreeIsZero, State.Cells, Fault, CarryingFault, PathOf, Distinct, Memory, OpenAtHome, InBudget, Safe, Source, Transparent;
    EventRefines(z, FaultAt(v));
    FaultKeepsZero(z.table, v, z.mended);
    FaultFindsPlace(z.table, v, z.counts);
    if z.mended {
      CarryingFaultKeepsMemory(z.table, v);
    } else {
      SafeFaultKeepsMemory(z.table, v);
    }
  }

  /** Frames and slots are zero at set-up, and the run is allowed: then a page that a fault gives to its
      thread for the first time reads zero at every byte. */
  lemma NewPageReadsZero(y: System, es: seq<Event>, z: System, v: nat)
    requires Invariant(y) && Initial(y.table) && AllowedRun(y, es) && z == Run(y, es)
    requires forall i, k :: 0 <= i < |y.table.ram| && 0 <= k < |y.table.ram[i]| ==> y.table.ram[i][k] == 0
    requires forall i, k :: 0 <= i < |y.table.swapFile| && 0 <= k < |y.table.swapFile[i]| ==> y.table.swapFile[i][k] == 0
    requires Allowed(z, FaultAt(v)) && Label(z.table.currThread, v) !in Memory(z.table.Cells())
    ensures Invariant(Next(z, FaultAt(v)))
    ensures var m, l := View(Next(z, FaultAt(v))).memory, Label(z.table.currThread, v);
            l in m && forall k :: 0 <= k < |m[l]| ==> m[l][k] == 0
  {
    ZeroAtSetUp(y.table);
    hide FreeIsZero, State.Cells, Invariant, Memory;
    RunKeepsZero(y, es);
    AddedPageIsZero(z, v);
  }

  lemma ZeroAtSetUp(s: State)
    requires s.Valid()
    requires forall i, k :: 0 <= i < |s.ram| && 0 <= k < |s.ram[i]| ==> s.ram[i][k] == 0
    requires forall i, k :: 0 <= i < |s.swapFile| && 0 <= k < |s.swapFile[i]| ==> s.swapFile[i][k] == 0
    ensures FreeIsZero(s.Cells())
  {
  }
}
