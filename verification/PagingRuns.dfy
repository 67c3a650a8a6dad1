/** Whole runs of the paged memory against the simple machine in which every thread has its own
    memory: a map from (thread, page) to bytes. */
module PagingRuns {
  import opened PageTable
  import opened Transparency
  import opened PagingLaws
  import opened PageBudget
  import opened Repairs

  /** What happens to the paged memory: the running thread faults in a page, writes an open page,
      gives way to another thread, exits in favour of another, or has pages added to its count. */
  datatype Event =
    | FaultAt(page: nat)
    | Store(page: nat, bytes: Page)
    | SwitchTo(next: int)
    | ExitTo(next: int)
    | Charge(pages: nat)

  /** `mended` says that the declared repairs are made. */
  datatype System = System(table: State, counts: seq<nat>, mended: bool)

  ghost predicate Invariant(y: System) {
    && y.table.Valid()
    && 0 < y.table.currThread < |y.counts|
    && Distinct(y.table.Cells())
    && OpenAtHome(y.table)
    && InBudget(y.table.Cells(), y.counts)
    && Sum(y.counts) <= |y.table.nodes|
  }

  /** All pages of thread t lie in frames that the walk of `protectPages` reaches. */
  ghost predicate AllWithinReach(s: State, t: int)
    requires s.Valid()
  {
    forall i :: 0 <= i < |s.nodes| && s.nodes[i].threadid == t ==> i < Reach(s)
  }

  /** What each event asks of its caller; without the repairs also that the walk at a switch reaches
      all it has to. */
  ghost predicate Asked(y: System, e: Event)
    requires Invariant(y)
  {
    var s := y.table;
    match e
    case FaultAt(v) => v < |s.ram| && v < y.counts[s.currThread]
    case Store(v, _) => v < |s.ram| && s.open[v]
    case SwitchTo(n) => 0 < n < |y.counts| && (y.mended || OpenWithinReach(s))
    case ExitTo(n) =>
      && 0 < n < |y.counts| && n != s.currThread
      && (y.mended || (OpenWithinReach(s) && AllWithinReach(s, s.currThread)))
    case Charge(n) => Sum(y.counts) + n <= |s.nodes|
  }

  /** And, without the repairs, that a fault is safe. */
  ghost predicate Allowed(y: System, e: Event)
    requires Invariant(y)
  {
    Asked(y, e) && (e.FaultAt? ==> y.mended || Safe(y.table, e.page))
  }

  /** The handler, as written or mended. */
  function Handled(s: State, v: nat, mended: bool): (r: State)
    requires s.Valid() && v < |s.ram|
    ensures Reshapes(s, r)
  {
    if mended then CarryingFault(s, v) else Fault(s, v)
  }

  ghost function Next(y: System, e: Event): System
    requires Invariant(y) && Asked(y, e)
  {
    var s, t := y.table, y.table.currThread;
    match e
    case FaultAt(v) => y.(table := Handled(s, v, y.mended))
    case Store(v, b) => y.(table := s.(ram := s.ram[v := b]))
    case SwitchTo(n) => y.(table := if y.mended then WideSwitch(s, n, false) else Switch(s, n, false))
    case ExitTo(n) => y.(table := if y.mended then WideSwitch(s, n, true) else Switch(s, n, true), counts := y.counts[t := 0])
    case Charge(n) => y.(counts := y.counts[t := y.counts[t] + n])
  }

  // ---------- the simple machine ----------

  datatype Simple = Simple(memory: map<Label, Page>, thread: int)

  ghost function View(y: System): Simple
    requires Invariant(y)
  {
    Simple(Memory(y.table.Cells()), y.table.currThread)
  }

  ghost predicate SimpleStep(m: Simple, e: Event, m': Simple) {
    match e
    case FaultAt(v) =>
      var l := Label(m.thread, v);
      && m'.thread == m.thread
      && l in m'.memory
      && m'.memory == if l in m.memory then m.memory else m.memory[l := m'.memory[l]]
    case Store(v, b) => m' == m.(memory := m.memory[Label(m.thread, v) := b])
    case SwitchTo(n) => m' == m.(thread := n)
    case ExitTo(n) => m' == Simple(map l | l in m.memory && l.thread != m.thread :: m.memory[l], n)
    case Charge(_) => m' == m
  }

  // ---------- one event ----------

  lemma FaultRefines(y: System, v: nat)
    requires Invariant(y) && Allowed(y, FaultAt(v))
    ensures Invariant(Next(y, FaultAt(v)))
    ensures SimpleStep(View(y), FaultAt(v), View(Next(y, FaultAt(v))))
  {
    hide Distinct, Memory, OpenAtHome, Fault, CarryingFault, Safe, Transparent;
    var s := y.table;
    FaultFindsPlace(s, v, y.counts);
    if y.mended {
      CarryingFaultKeepsMemory(s, v);
      CarryingFaultKeepsOpenAtHome(s, v);
    } else {
      SafeFaultKeepsMemory(s, v);
      SafeFaultKeepsOpenAtHome(s, v);
    }
    MemoryStep(y, v, Next(y, FaultAt(v)).table, s.Cells()[Source(s, v, PathOf(s, v))].bytes);
  }

  lemma MemoryStep(y: System, v: nat, s': State, b: Page)
    requires Invariant(y) && v < y.counts[y.table.currThread]
    requires s'.Valid() && s'.currThread == y.table.currThread && |s'.nodes| == |y.table.nodes|
    requires Distinct(s'.Cells()) && OpenAtHome(s')
    requires var m, m', l := Memory(y.table.Cells()), Memory(s'.Cells()), Label(y.table.currThread, v);
             l in m' && (m' == m || (l !in m && m' == m[l := b]))
    ensures Invariant(y.(table := s'))
    ensures SimpleStep(View(y), FaultAt(v), View(y.(table := s')))
  {
    BudgetFromMemory(y.table.Cells(), s'.Cells(), y.counts, Label(y.table.currThread, v));
  }

  /** A step that adds at most a page within budget stays within budget. */
  lemma BudgetFromMemory(c: seq<Cell>, c': seq<Cell>, counts: seq<nat>, l: Label)
    requires Distinct(c) && Distinct(c') && InBudget(c, counts)
    requires Memory(c').Keys <= Memory(c).Keys + {l}
    requires 0 < l.thread < |counts| && 0 <= l.page < counts[l.thread]
    ensures InBudget(c', counts)
  {
    forall i | 0 <= i < |c'| && c'[i].owner != 0
      ensures 0 < c'[i].owner < |counts| && 0 <= c'[i].home < counts[c'[i].owner]
    {
      MemoryAt(c', i);
      if LabelOf(c'[i]) in Memory(c) {
        var j := PlaceOf(c, LabelOf(c'[i]));
      }
    }
  }

  lemma StoreRefines(y: System, v: nat, b: Page)
    requires Invariant(y) && Allowed(y, Store(v, b))
    ensures Invariant(Next(y, Store(v, b)))
    ensures SimpleStep(View(y), Store(v, b), View(Next(y, Store(v, b))))
  {
    var c, c' := y.table.Cells(), Next(y, Store(v, b)).table.Cells();
    assert c' == c[v := c[v].(bytes := b)];
    assert LabelOf(c[v]) == Label(y.table.currThread, v);
    StoredMemory(c, v, b);
  }

  lemma StoredMemory(c: seq<Cell>, v: nat, b: Page)
    requires Distinct(c) && v < |c| && c[v].owner != 0
    ensures var c' := c[v := c[v].(bytes := b)];
            Distinct(c') && Memory(c') == Memory(c)[LabelOf(c[v]) := b]
  {
    var c', l := c[v := c[v].(bytes := b)], LabelOf(c[v]);
    assert Distinct(c');
    MemoryAt(c', v);
    forall k | k in Memory(c) && k != l ensures k in Memory(c') && Memory(c')[k] == Memory(c)[k] {
      var i := PlaceOf(c, k);
      MemoryAt(c', i);
    }
    forall k | k in Memory(c') && k != l ensures k in Memory(c) {
      var i := PlaceOf(c', k);
      MemoryAt(c, i);
    }
  }

  lemma SwitchRefines(y: System, n: int)
    requires Invariant(y) && Allowed(y, SwitchTo(n))
    ensures Invariant(Next(y, SwitchTo(n)))
    ensures SimpleStep(View(y), SwitchTo(n), View(Next(y, SwitchTo(n))))
  {
    if y.mended {
      WideSwitchIsolates(y.table, n, false);
      ClosedIsHome(y.table, Next(y, SwitchTo(n)).table);
    } else {
      assert Switch(y.table, n, false).Cells() == y.table.Cells();
    }
  }

  lemma ClosedIsHome(s: State, r: State)
    requires s.Valid() && r.Valid() && OpenAtHome(s) && |r.ram| == |s.ram| && |r.nodes| == |s.nodes|
    requires forall i :: 0 <= i < |r.open| && r.open[i] ==> s.open[i] && s.Cells()[i].owner != s.currThread
    ensures OpenAtHome(r)
  {
  }

  lemma WipedMemory(c: seq<Cell>, c': seq<Cell>, r: nat, t: int)
    requires Distinct(c) && Wiped(c, c', r, t)
    ensures Distinct(c')
    ensures forall l :: l in Memory(c) && l.thread != t ==> l in Memory(c') && Memory(c')[l] == Memory(c)[l]
    ensures forall l :: l in Memory(c') ==> l in Memory(c) && Memory(c')[l] == Memory(c)[l]
  {
    forall l | l in Memory(c) && l.thread != t ensures l in Memory(c') && Memory(c')[l] == Memory(c)[l] {
      var i := PlaceOf(c, l);
      MemoryAt(c', i);
    }
    forall l | l in Memory(c') ensures l in Memory(c) && Memory(c')[l] == Memory(c)[l] {
      var i := PlaceOf(c', l);
      MemoryAt(c, i);
    }
  }

  lemma WipedForgetsIffReached(c: seq<Cell>, c': seq<Cell>, r: nat, t: int)
    requires Distinct(c) && Distinct(c') && Wiped(c, c', r, t)
    ensures (forall l :: l in Memory(c') ==> l.thread != t) <==>
            (forall i :: 0 <= i < |c| && c[i].owner == t ==> i < r)
  {
    if forall i :: 0 <= i < |c| && c[i].owner == t ==> i < r {
      forall l | l in Memory(c') ensures l.thread != t {
        var i := PlaceOf(c', l);
      }
    } else {
      var i :| 0 <= i < |c| && c[i].owner == t && i >= r;
      MemoryAt(c', i);
    }
  }

  lemma ExitWipes(s: State, n: int)
    requires s.Valid() && n != 0
    ensures Wiped(s.Cells(), Switch(s, n, true).Cells(), Reach(s), s.currThread)
    ensures AllWithinReach(s, s.currThread) <==>
              forall i :: 0 <= i < |s.Cells()| && s.Cells()[i].owner == s.currThread ==> i < Reach(s)
  {
    assert forall i :: 0 <= i < |s.nodes| ==> s.Cells()[i].owner == s.nodes[i].threadid;
  }

  /** On exit the walk forgets all pages of the leaving thread exactly when it reaches all of
      them; no other thread loses anything in either case. */
  lemma ExitForgetsIffReached(s: State, n: int)
    requires s.Valid() && n != 0 && Distinct(s.Cells())
    ensures var t := s.currThread;
            var m, c' := Memory(s.Cells()), Switch(s, n, true).Cells();
            && Distinct(c')
            && (forall l :: l in m && l.thread != t ==> l in Memory(c') && Memory(c')[l] == m[l])
            && (forall l :: l in Memory(c') ==> l in m && Memory(c')[l] == m[l])
            && ((forall l :: l in Memory(c') ==> l.thread != t) <==> AllWithinReach(s, t))
  {
    var t, c, c' := s.currThread, s.Cells(), Switch(s, n, true).Cells();
    ExitWipes(s, n);
    WipedMemory(c, c', Reach(s), t);
    WipedForgetsIffReached(c, c', Reach(s), t);
  }

  lemma BudgetAfterExit(c: seq<Cell>, c': seq<Cell>, counts: seq<nat>, t: nat)
    requires t < |counts| && InBudget(c, counts) && |c'| == |c|
    requires forall i :: 0 <= i < |c| && c'[i].owner != 0 ==> c'[i] == c[i] && c[i].owner != t
    ensures InBudget(c', counts[t := 0])
  {
  }

  lemma ExitView(s: State, n: int)
    requires s.Valid() && n != 0 && Distinct(s.Cells()) && AllWithinReach(s, s.currThread)
    ensures Distinct(Switch(s, n, true).Cells())
    ensures Memory(Switch(s, n, true).Cells()) ==
              map l | l in Memory(s.Cells()) && l.thread != s.currThread :: Memory(s.Cells())[l]
  {
    ExitForgetsIffReached(s, n);
  }

  lemma ExitRefines(y: System, n: int)
    requires Invariant(y) && Allowed(y, ExitTo(n))
    ensures Invariant(Next(y, ExitTo(n)))
    ensures SimpleStep(View(y), ExitTo(n), View(Next(y, ExitTo(n))))
  {
    var s, t := y.table, y.table.currThread;
    if y.mended {
      WideExitRefines(y, n);
    } else {
      ExitWipes(s, n);
      ExitView(s, n);
      BudgetAfterExit(s.Cells(), Switch(s, n, true).Cells(), y.counts, t);
      SumAfterChange(y.counts, t, 0);
    }
  }

  lemma WideExitRefines(y: System, n: int)
    requires Invariant(y) && Allowed(y, ExitTo(n)) && y.mended
    ensures Invariant(Next(y, ExitTo(n)))
    ensures SimpleStep(View(y), ExitTo(n), View(Next(y, ExitTo(n))))
  {
    var s, t, c := y.table, y.table.currThread, y.table.Cells();
    var r := Next(y, ExitTo(n)).table;
    WideSwitchIsolates(s, n, true);
    hide WideSwitch, State.Cells, Memory, Distinct;
    ClosedIsHome(s, r);
    WipedMemory(c, r.Cells(), |c|, t);
    WipedForgetsIffReached(c, r.Cells(), |c|, t);
    BudgetAfterExit(c, r.Cells(), y.counts, t);
    SumAfterChange(y.counts, t, 0);
  }

  lemma ChargeRefines(y: System, n: nat)
    requires Invariant(y) && Allowed(y, Charge(n))
    ensures Invariant(Next(y, Charge(n)))
    ensures SimpleStep(View(y), Charge(n), View(Next(y, Charge(n))))
  {
    var t := y.table.currThread;
    SumAfterChange(y.counts, t, y.counts[t] + n);
  }

  lemma EventRefines(y: System, e: Event)
    requires Invariant(y) && Allowed(y, e)
    ensures Invariant(Next(y, e))
    ensures SimpleStep(View(y), e, View(Next(y, e)))
  {
    match e
    case FaultAt(v) => FaultRefines(y, v);
    case Store(v, b) => StoreRefines(y, v, b);
    case SwitchTo(n) => SwitchRefines(y, n);
    case ExitTo(n) => ExitRefines(y, n);
    case Charge(n) => ChargeRefines(y, n);
  }

  // ---------- progress ----------

  /** A page that counts as away although it lies in its own frame is marked home by the fault. */
  lemma SelfDisplaced(s: State, v: nat, mended: bool)
    requires s.Valid() && v < |s.ram| && PathOf(s, v) == Displaced(v)
    ensures var r := Handled(s, v, mended); PathOf(r, v) == AlreadyHome && Handled(r, v, mended).open[v]
  {
    var r := Handled(s, v, mended);
    assert r.nodes[v].threadid == s.currThread && r.nodes[v].retAddr == -1;
  }

  /** Within its count a thread has frame v open after at most two faults there, as written and mended;
      one is enough unless its page lies in frame v and counts as away. */
  lemma OpenAfterTwoFaults(y: System, v: nat)
    requires Invariant(y) && v < |y.table.ram| && v < y.counts[y.table.currThread]
    ensures var r := Handled(y.table, v, y.mended);
            r.open[v] || (PathOf(y.table, v) == Displaced(v) && Handled(r, v, y.mended).open[v])
  {
    var s := y.table;
    FaultFindsPlace(s, v, y.counts);
    FaultOpens(s, v);
    hide Fault, CarryingFault, PathOf;
    if PathOf(s, v) == Displaced(v) {
      SelfDisplaced(s, v, y.mended);
    } else {
      SameOpen(s, v, y.mended);
    }
  }

  lemma SameOpen(s: State, v: nat, mended: bool)
    requires s.Valid() && v < |s.ram|
    ensures Handled(s, v, mended).open == Fault(s, v).open
  {
    CarryingFaultIs(s, v);
  }

  // ---------- whole runs ----------

  ghost predicate AllowedRun(y: System, es: seq<Event>)
    requires Invariant(y)
    decreases es
  {
    es == [] || (Allowed(y, es[0]) && (EventRefines(y, es[0]); AllowedRun(Next(y, es[0]), es[1..])))
  }

  ghost function Run(y: System, es: seq<Event>): (z: System)
    requires Invariant(y) && AllowedRun(y, es)
    ensures Invariant(z)
    decreases es
  {
    if es == [] then y else (EventRefines(y, es[0]); Run(Next(y, es[0]), es[1..]))
  }

  /** The event keeps every page of every thread; a fault adds at most the page asked for. */
  ghost predicate Keeps(y: System, e: Event)
    requires Invariant(y) && Asked(y, e)
  {
    e.FaultAt? ==> Transparent(y.table.Cells(), Next(y, e).table.Cells(), Label(y.table.currThread, e.page))
  }

  lemma KeepsIffAllowed(y: System, e: Event)
    requires Invariant(y) && Asked(y, e)
    ensures Keeps(y, e) <==> Allowed(y, e)
  {
    hide Transparent, Safe, Fault, CarryingFault, State.Cells, Distinct;
    if e.FaultAt? {
      if y.mended { CarryingFaultKeepsMemory(y.table, e.page); } else { FaultTransparentIffSafe(y.table, e.page); }
    }
  }

  /** Every caller keeps to what is asked, as far as all pages are kept. */
  ghost predicate AskedRun(y: System, es: seq<Event>)
    requires Invariant(y)
    decreases es
  {
    es == [] || (
      && Asked(y, es[0])
      && (Allowed(y, es[0]) ==> (EventRefines(y, es[0]); AskedRun(Next(y, es[0]), es[1..]))))
  }

  /** Every event of the run keeps every page. */
  ghost predicate KeepsPages(y: System, es: seq<Event>)
    requires Invariant(y)
    decreases es
  {
    es == [] || (
      && Asked(y, es[0]) && Keeps(y, es[0])
      && (KeepsIffAllowed(y, es[0]); EventRefines(y, es[0]); KeepsPages(Next(y, es[0]), es[1..])))
  }

  /** Every fault of the run is safe when it comes, as the program handles it. */
  ghost predicate FaultsSafe(y: System, es: seq<Event>)
    requires Invariant(y) && AskedRun(y, es)
    decreases es
  {
    es == [] || (
      && (es[0].FaultAt? ==> y.mended || Safe(y.table, es[0].page))
      && (EventRefines(y, es[0]); FaultsSafe(Next(y, es[0]), es[1..])))
  }

  /** A run as written, in which the walks reach all they have to, keeps every page throughout if and
      only if each of its faults is safe when it comes; a mended run always does. */
  lemma {:induction false} RunKeepsPagesIff(y: System, es: seq<Event>)
    requires Invariant(y) && AskedRun(y, es)
    ensures KeepsPages(y, es) <==> FaultsSafe(y, es)
    ensures y.mended ==> KeepsPages(y, es)
    decreases es
  {
    hide Invariant, Asked, Keeps, Safe, Next;
    if es != [] {
      KeepsIffAllowed(y, es[0]);
      if Allowed(y, es[0]) {
        EventRefines(y, es[0]);
        StaysMended(y, es[0]);
        RunKeepsPagesIff(Next(y, es[0]), es[1..]);
      }
    }
  }

  lemma StaysMended(y: System, e: Event)
    requires Invariant(y) && Asked(y, e)
    ensures Next(y, e).mended == y.mended
  {
  }

  /** In this run thread t neither writes its page v nor exits. */
  ghost predicate Undisturbed(y: System, es: seq<Event>, t: int, v: nat)
    requires Invariant(y) && AllowedRun(y, es)
    decreases es
  {
    es == [] || (
      && (y.table.currThread == t ==> !es[0].ExitTo? && !(es[0].Store? && es[0].page == v))
      && (EventRefines(y, es[0]); Undisturbed(Next(y, es[0]), es[1..], t, v)))
  }

  lemma PageSurvivesEvent(m: Simple, e: Event, m': Simple, l: Label)
    requires SimpleStep(m, e, m') && l in m.memory
    requires m.thread == l.thread ==> !e.ExitTo? && !(e.Store? && e.page == l.page)
    ensures l in m'.memory && m'.memory[l] == m.memory[l]
  {
  }

  /** A page keeps its bytes through any allowed run of any threads until its owner writes it or
      exits, wherever faults, evictions and switches move it. */
  lemma {:induction false} PageSurvivesRun(y: System, es: seq<Event>, t: int, v: nat)
    requires Invariant(y) && AllowedRun(y, es) && Undisturbed(y, es, t, v)
    requires Label(t, v) in View(y).memory
    ensures Label(t, v) in View(Run(y, es)).memory
    ensures View(Run(y, es)).memory[Label(t, v)] == View(y).memory[Label(t, v)]
    decreases es
  {
    if es != [] {
      var y1 := Next(y, es[0]);
      EventRefines(y, es[0]);
      PageSurvivesEvent(View(y), es[0], View(y1), Label(t, v));
      PageSurvivesRun(y1, es[1..], t, v);
    }
  }

  /** What the running thread can touch is what the simple map says. */
  lemma OpenPageReads(y: System, v: nat)
    requires Invariant(y) && v < |y.table.ram| && y.table.open[v]
    ensures var m := View(y); Label(m.thread, v) in m.memory && m.memory[Label(m.thread, v)] == y.table.ram[v]
  {
    MemoryAt(y.table.Cells(), v);
  }

  /** A thread reads back what it last stored. */
  lemma ReadBack(y: System, v: nat, b: Page, es: seq<Event>)
    requires Invariant(y) && Allowed(y, Store(v, b))
    requires Invariant(Next(y, Store(v, b))) && AllowedRun(Next(y, Store(v, b)), es)
    requires Undisturbed(Next(y, Store(v, b)), es, y.table.currThread, v)
    ensures var s := Run(Next(y, Store(v, b)), es).table;
            s.currThread == y.table.currThread && v < |s.ram| && s.open[v] ==> s.ram[v] == b
  {
    StoreRefines(y, v, b);
    ReadsUnlessDisturbed(Next(y, Store(v, b)), es, y.table.currThread, v);
  }

  lemma ReadsUnlessDisturbed(y: System, es: seq<Event>, t: int, v: nat)
    requires Invariant(y) && AllowedRun(y, es) && Undisturbed(y, es, t, v)
    requires Label(t, v) in View(y).memory
    ensures var s := Run(y, es).table;
            s.currThread == t && v < |s.ram| && s.open[v] ==> s.ram[v] == View(y).memory[Label(t, v)]
  {
    PageSurvivesRun(y, es, t, v);
    var z := Run(y, es);
    if z.table.currThread == t && v < |z.table.ram| && z.table.open[v] {
      OpenPageReads(z, v);
    }
  }

  lemma InitiallyEmpty(y: System)
    requires Initial(y.table) && 0 < y.table.currThread < |y.counts| && Sum(y.counts) <= |y.table.nodes|
    ensures Invariant(y) && View(y).memory == map[]
  {
  }

  // ---------- where the handler loses a page ----------

  lemma FaultElsewhere(s: State, v: nat, j: nat)
    requires s.Valid() && v < |s.ram| && j < |s.ram|
    requires s.nodes[v].threadid != 0 && !Matches(s.nodes[v], PageOf(s.currThread, -1))
    requires forall i :: 0 <= i < |s.nodes| ==> !Matches(s.nodes[i], PageOf(s.currThread, v))
    requires s.nodes[j].threadid == 0 && forall i :: 0 <= i < j ==> s.nodes[i].threadid != 0
    ensures var n := s.nodes[v];
            Fault(s, v).nodes ==
              s.nodes[j := PageNode(n.threadid, v, n.referenceBit)][v := PageNode(s.currThread, -1, true)]
  {
    FirstIs(s.nodes, 0, |s.ram|, PageOf(s.currThread, v), |s.ram|);
    FirstIs(s.nodes, |s.ram|, |s.nodes|, PageOf(s.currThread, v), |s.nodes|);
    FirstIs(s.nodes, 0, |s.ram|, FreePlace, j);
    assert PathOf(s, v) == EmptyElsewhere(j);
  }

  lemma FirstFault(s: State, v: nat)
    requires Initial(s) && v < |s.ram|
    ensures Fault(s, v).nodes == s.nodes[v := PageNode(s.currThread, -1, true)]
    ensures Fault(s, v).open == s.open[v := true] && Fault(s, v).hand == 0
    ensures Fault(s, v).currThread == s.currThread
  {
    FirstIs(s.nodes, 0, |s.ram|, PageOf(s.currThread, v), |s.ram|);
    FirstIs(s.nodes, |s.ram|, |s.nodes|, PageOf(s.currThread, v), |s.nodes|);
    assert PathOf(s, v) == FreeFrame;
  }

  /** The table after thread 1 and then thread 2 faulted in page 0, with thread 1 running again. */
  function TwoFaults(s: State): (r: State)
    requires s.Valid() && s.currThread == 1
    ensures Reshapes(s, r)
  {
    Switch(Fault(Switch(Fault(s, 0), 2, false), 0), 1, false)
  }

  lemma AfterTwoFaults(s: State)
    requires Initial(s) && |s.ram| >= 3 && s.currThread == 1
    ensures TwoFaults(s).nodes == s.nodes[1 := PageNode(1, 0, true)][0 := PageNode(2, -1, true)]
  {
    FirstFault(s, 0);
    var s1 := Switch(Fault(s, 0), 2, false);
    assert s1.nodes == s.nodes[0 := PageNode(1, -1, true)];
    FaultElsewhere(s1, 0, 1);
  }

  /** Page l of a thread lies nowhere. */
  ghost predicate Lacks(s: State, l: Label)
    requires s.Valid()
  {
    forall i :: 0 <= i < |s.nodes| ==> LabelOf(s.CellAt(i)) != l
  }

  lemma ThirdFault(s: State)
    requires s.Valid() && |s.ram| >= 3 && s.currThread == 1
    requires s.nodes[0] == PageNode(2, -1, true) && s.nodes[1] == PageNode(1, 0, true)
    requires forall i :: 2 <= i < |s.nodes| ==> s.nodes[i] == PageNode(0, -1, false)
    ensures !Lacks(s, Label(1, 0)) && Lacks(Fault(s, 1), Label(1, 0))
  {
    FaultElsewhere(s, 1, 2);
    assert LabelOf(s.CellAt(1)) == Label(1, 0);
  }

  /** From the initial table: thread 1 faults in page 0; thread 2 faults in page 0, which moves the
      page of thread 1 to frame 1; thread 1 faults in page 1, which lies there.  The handler then
      counts page 0 of thread 1 as its page 1, and page 0 is gone. */
  lemma ThreeFaultsLoseAPage(s: State)
    requires Initial(s) && |s.ram| >= 3 && s.currThread == 1
    ensures !Lacks(TwoFaults(s), Label(1, 0)) && Lacks(Fault(TwoFaults(s), 1), Label(1, 0))
  {
    AfterTwoFaults(s);
    ThirdFault(TwoFaults(s));
  }

  // ---------- where the walk stops short ----------

  /** From the initial table: thread 1 faults in page 1, and thread 2 is dispatched.  The walk stops at
      the free frame 0, and frame 1 stays open for thread 2. */
  lemma SwitchLeavesFrameOpen(s: State)
    requires Initial(s) && |s.ram| >= 2 && s.currThread == 1
    ensures var r := Switch(Fault(s, 1), 2, false);
            r.Valid() && r.currThread == 2 && r.open[1] && r.nodes[1].threadid == 1 && !Isolated(r)
  {
    FirstFault(s, 1);
    var f := Fault(s, 1);
    var r := Switch(f, 2, false);
    assert Reach(f.(currThread := 2)) == 0;
    assert r.Cells()[1].owner == 1;
  }

  /** With one frame only, the second fault sends the page of thread 1 to a slot. */
  lemma PageIsEvicted(s: State)
    requires Initial(s) && |s.ram| == 1 && |s.swapFile| > 0 && s.currThread == 1
    ensures TwoFaults(s).nodes[1].threadid == 1 && TwoFaults(s).nodes[1].retAddr == 0
    ensures TwoFaults(s).nodes[0].threadid == 2
  {
    FirstFault(s, 0);
    var s1 := Switch(Fault(s, 0), 2, false);
    assert s1.nodes == s.nodes[0 := PageNode(1, -1, true)];
    FirstIs(s1.nodes, 0, 1, PageOf(2, 0), 1);
    FirstIs(s1.nodes, 1, |s1.nodes|, PageOf(2, 0), |s1.nodes|);
    FirstIs(s1.nodes, 0, 1, FreePlace, 1);
    FirstIs(s1.nodes, 1, |s1.nodes|, FreePlace, 1);
    assert PathOf(s1, 0) == ToSwap(0);
    var s2 := s1.(nodes := ClearBit(s1.nodes, 0));
    assert Evict(s2) == (s2, 0, 1);
    assert Evict(s1).0 == s2 && Evict(s1).1 == 0;
  }

  /** Thread 1 exits while its page 0 lies in a slot: the page is still there afterwards. */
  lemma SlotSurvivesExit(s: State)
    requires Initial(s) && |s.ram| == 1 && |s.swapFile| > 0 && s.currThread == 1
    ensures var r := Switch(TwoFaults(s), 2, true);
            r.Valid() && r.nodes[1].threadid == 1 && LabelOf(r.CellAt(1)) == Label(1, 0)
  {
    PageIsEvicted(s);
    hide TwoFaults;
    var r := Switch(TwoFaults(s), 2, true);
    assert r.nodes[1] == TwoFaults(s).nodes[1];
  }
}
