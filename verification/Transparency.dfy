/** When a page fault is invisible to the threads: the table of nodes against the simple map
    from (thread, page) to bytes. */
module Transparency {
  import opened PageTable
  import opened Eviction

  datatype Label = Label(thread: int, page: int)

  function LabelOf(c: Cell): Label {
    Label(c.owner, c.home)
  }

  /** No page of a thread exists twice. */
  ghost predicate Distinct(c: seq<Cell>) {
    forall i, j :: 0 <= i < j < |c| && c[i].owner != 0 && c[j].owner != 0 ==> LabelOf(c[i]) != LabelOf(c[j])
  }

  /** The simple map that the table stands for. */
  ghost function Memory(c: seq<Cell>): map<Label, Page>
    requires Distinct(c)
  {
    map i | 0 <= i < |c| && c[i].owner != 0 :: LabelOf(c[i]) := c[i].bytes
  }

  /** The step from c to c' keeps every page of every thread, adding at most page `l`. */
  ghost predicate Transparent(c: seq<Cell>, c': seq<Cell>, l: Label)
    requires Distinct(c)
  {
    && Distinct(c')
    && (forall k :: k in Memory(c) ==> k in Memory(c') && Memory(c')[k] == Memory(c)[k])
    && (forall k :: k in Memory(c') ==> k in Memory(c) || k == l)
  }

  // ---------- every path of the fault handler is one rotation of cells ----------

  /** The bytes at x become page v of thread t in frame v; the cell of frame v moves to f and
      that of f to x, both from now on counted as belonging to frame v. */
  function Rotated(c: seq<Cell>, v: nat, f: nat, x: nat, t: int): seq<Cell>
    requires v < |c| && f < |c| && x < |c|
  {
    c[f := c[v].(home := v)][x := c[f].(home := v)][v := Cell(t, v, c[x].bytes)]
  }

  /** The frame evicted on path p if it evicts, else v itself. */
  function Victim(s: State, v: nat, p: Path): (f: nat)
    requires s.Valid() && v < |s.ram| && InRange(s, p)
    ensures f < |s.ram|
  {
    match p
    case InSwap(k) => Evict(Touch(s, |s.ram| + k)).1
    case ToSwap(_) => Evict(s).1
    case _ => v
  }

  /** The place whose bytes end up in frame v. */
  function Source(s: State, v: nat, p: Path): (x: nat)
    requires s.Valid() && v < |s.ram| && InRange(s, p)
    ensures x < |s.nodes|
  {
    match p
    case Displaced(j) => j
    case EmptyElsewhere(j) => j
    case InSwap(k) => |s.ram| + k
    case ToSwap(k) => |s.ram| + k
    case _ => v
  }

  lemma SameCells(s: State, s': State)
    requires s.Valid() && s'.Valid()
    requires s'.ram == s.ram && s'.swapFile == s.swapFile && OnlyClears(s'.nodes, s.nodes)
    ensures s'.Cells() == s.Cells()
  {
    forall i | 0 <= i < |s.nodes| ensures s'.CellAt(i) == s.CellAt(i) {}
  }

  lemma EvictKeepsCells(s: State)
    requires s.Valid()
    ensures Evict(s).0.Cells() == s.Cells()
    ensures forall i :: 0 <= i < |s.nodes| ==> Evict(s).0.nodes[i].threadid == s.nodes[i].threadid
  {
    EvictionRounds(s);
    assert forall i :: 0 <= i < |s.nodes| ==> Evict(s).0.CellAt(i) == s.CellAt(i);
  }

  lemma SwapPageCells(s: State, out: nat, inn: nat, keepMark: bool)
    requires s.Valid() && out < |s.ram| && inn < |s.ram|
    ensures SwapPage(s, out, inn, keepMark).Valid()
    ensures var c := s.Cells();
            SwapPage(s, out, inn, keepMark).Cells() ==
              c[inn := c[out].(home := out)]
              [out := Cell(c[inn].owner,
                           if keepMark && s.nodes[inn].retAddr != -1 then c[inn].home else out,
                           c[inn].bytes)]
  {
  }

  lemma SwapFileGrabCells(s: State, out: nat, k: nat)
    requires s.Valid() && out < |s.ram| && k < |s.swapFile|
    ensures SwapFileGrab(s, out, k).Valid()
    ensures var c := s.Cells();
            var x := |s.ram| + k;
            SwapFileGrab(s, out, k).Cells() ==
              c[x := c[out].(home := out)][out := Cell(c[x].owner, out, c[x].bytes)]
  {
  }

  lemma BringInCells(s: State, v: nat, f: nat, k: nat)
    requires s.Valid() && v < |s.ram| && f < |s.ram| && k < |s.swapFile|
    ensures BringIn(s, v, f, k).Valid()
    ensures BringIn(s, v, f, k).Cells() == Rotated(s.Cells(), v, f, |s.ram| + k, s.nodes[|s.ram| + k].threadid)
  {
    if f != v {
      SwapPageCells(s, v, f, true);
      SwapFileGrabCells(SwapPage(s, v, f, true), v, k);
    } else {
      SwapFileGrabCells(s, v, k);
    }
  }

  lemma ClaimCells(s: State, i: nat)
    requires s.Valid() && i < |s.nodes|
    ensures Claim(s, i).Cells() == s.Cells()[i := s.Cells()[i].(owner := s.currThread)]
  {
  }

  lemma RotationForgetsSourceOwner(c: seq<Cell>, v: nat, f: nat, x: nat, t: int)
    requires v < |c| && f < |c| && x < |c| && v != x && f != x
    ensures Rotated(c[x := c[x].(owner := t)], v, f, x, t) == Rotated(c, v, f, x, t)
  {
  }

  lemma OwnedBringIn(c: seq<Cell>, s: State, v: nat, f: nat, k: nat)
    requires s.Valid() && v < |s.ram| && f < |s.ram| && k < |s.swapFile| && s.Cells() == c
    requires s.nodes[|s.ram| + k].threadid == s.currThread
    ensures BringIn(s, v, f, k).Cells() == Rotated(c, v, f, |s.ram| + k, s.currThread)
  {
    BringInCells(s, v, f, k);
  }

  lemma ClaimedBringIn(c: seq<Cell>, s: State, v: nat, f: nat, k: nat)
    requires s.Valid() && v < |s.ram| && f < |s.ram| && k < |s.swapFile| && s.Cells() == c
    ensures ClaimSlot(s, v, f, k).Cells() == Rotated(c, v, f, |s.ram| + k, s.currThread)
  {
    var x, t := |s.ram| + k, s.currThread;
    ClaimCells(s, x);
    OwnedBringIn(c[x := c[x].(owner := t)], Claim(s, x), v, f, k);
    RotationForgetsSourceOwner(c, v, f, x, t);
  }

  lemma TakeDisplaced(s: State, v: nat, j: nat)
    requires s.Valid() && v < |s.ram| && j < |s.ram| && s.nodes[j].threadid == s.currThread
    ensures Take(s, v, Displaced(j)).Cells() == Rotated(s.Cells(), v, v, j, s.currThread)
  {
    SameCells(s, Touch(s, j));
    SwapPageCells(Touch(s, j), v, j, false);
  }

  lemma TakeEmptyElsewhere(s: State, v: nat, j: nat)
    requires s.Valid() && v < |s.ram| && j < |s.ram| && j != v
    ensures Take(s, v, EmptyElsewhere(j)).Cells() == Rotated(s.Cells(), v, v, j, s.currThread)
  {
    ClaimCells(s, j);
    SwapPageCells(Claim(s, j), v, j, false);
    RotationForgetsSourceOwner(s.Cells(), v, v, j, s.currThread);
  }

  lemma FetchSlotCells(s: State, v: nat, k: nat)
    requires s.Valid() && v < |s.ram| && k < |s.swapFile| && s.nodes[|s.ram| + k].threadid == s.currThread
    ensures FetchSlot(s, v, k).Cells() == Rotated(s.Cells(), v, Evict(s).1, |s.ram| + k, s.currThread)
  {
    hide Evict, BringIn, Rotated, State.Cells;
    EvictKeepsCells(s);
    OwnedBringIn(s.Cells(), Evict(s).0, v, Evict(s).1, k);
  }

  lemma TakeInSwap(s: State, v: nat, k: nat)
    requires s.Valid() && v < |s.ram| && k < |s.swapFile| && s.nodes[|s.ram| + k].threadid == s.currThread
    ensures var p := InSwap(k);
            Take(s, v, p).Cells() == Rotated(s.Cells(), v, Victim(s, v, p), |s.ram| + k, s.currThread)
  {
    SameCells(s, Touch(s, |s.ram| + k));
    FetchSlotCells(Touch(s, |s.ram| + k), v, k);
  }

  lemma TakeToSwap(s: State, v: nat, k: nat)
    requires s.Valid() && v < |s.ram| && k < |s.swapFile|
    ensures var p := ToSwap(k);
            Take(s, v, p).Cells() == Rotated(s.Cells(), v, Victim(s, v, p), |s.ram| + k, s.currThread)
  {
    hide Evict, Rotated, State.Cells, BringIn, Claim;
    var (s1, f, _) := Evict(s);
    EvictKeepsCells(s);
    ClaimedBringIn(s.Cells(), s1, v, f, k);
  }

  lemma TakeInPlace(s: State, v: nat)
    requires s.Valid() && v < |s.ram|
    ensures Take(s, v, AlreadyHome).Cells() == s.Cells()
    ensures Take(s, v, Exhausted).Cells() == s.Cells()
    ensures Take(s, v, FreeFrame).Cells() == s.Cells()[v := s.Cells()[v].(owner := s.currThread)]
  {
    hide Take, Evict, State.Cells;
    TakeHome(s, v);
    TakeNothing(s, v);
    TakeFree(s, v);
  }

  lemma TakeHome(s: State, v: nat)
    requires s.Valid() && v < |s.ram|
    ensures Take(s, v, AlreadyHome).Cells() == s.Cells()
  {
    hide Evict, State.Cells;
    SameCells(s, Take(s, v, AlreadyHome));
  }

  lemma TakeNothing(s: State, v: nat)
    requires s.Valid() && v < |s.ram|
    ensures Take(s, v, Exhausted).Cells() == s.Cells()
  {
    hide Evict, State.Cells;
    EvictKeepsCells(s);
  }

  lemma TakeFree(s: State, v: nat)
    requires s.Valid() && v < |s.ram|
    ensures Take(s, v, FreeFrame).Cells() == s.Cells()[v := s.Cells()[v].(owner := s.currThread)]
  {
    hide Evict;
    ClaimCells(s, v);
    assert Take(s, v, FreeFrame).Cells() == Claim(s, v).Cells();
  }

  /** One equation for all seven paths of the handler. */
  lemma TakeOnCells(s: State, v: nat, p: Path)
    requires s.Valid() && v < |s.ram| && InRange(s, p)
    requires p.Displaced? || p.InSwap? ==> s.nodes[Source(s, v, p)].threadid == s.currThread
    requires p.EmptyElsewhere? ==> p.frame != v
    ensures var c := s.Cells();
            Take(s, v, p).Cells() ==
              if p.AlreadyHome? || p.Exhausted? then c
              else if p.FreeFrame? then c[v := c[v].(owner := s.currThread)]
              else Rotated(c, v, Victim(s, v, p), Source(s, v, p), s.currThread)
  {
    hide Take, Evict, Rotated, State.Cells;
    match p
    case AlreadyHome =>
      TakeInPlace(s, v);
    case Displaced(j) =>
      TakeDisplaced(s, v, j);
    case InSwap(k) =>
      TakeInSwap(s, v, k);
    case FreeFrame =>
      TakeInPlace(s, v);
    case EmptyElsewhere(j) =>
      TakeEmptyElsewhere(s, v, j);
    case ToSwap(k) =>
      TakeToSwap(s, v, k);
    case Exhausted =>
      TakeInPlace(s, v);
  }

  // ---------- when a fault is transparent ----------

  lemma MemoryAt(c: seq<Cell>, i: nat)
    requires Distinct(c) && i < |c| && c[i].owner != 0
    ensures LabelOf(c[i]) in Memory(c) && Memory(c)[LabelOf(c[i])] == c[i].bytes
  {
  }

  lemma PlaceOf(c: seq<Cell>, l: Label) returns (i: nat)
    requires Distinct(c) && l in Memory(c)
    ensures i < |c| && c[i].owner != 0 && LabelOf(c[i]) == l && c[i].bytes == Memory(c)[l]
  {
    i :| 0 <= i < |c| && c[i].owner != 0 && LabelOf(c[i]) == l;
  }

  /** Nobody loses the cell when it is counted as belonging to frame v. */
  predicate BelongsAt(c: Cell, v: nat) {
    c.owner == 0 || c.home == v
  }

  /** The shape common to the paths that move pages: the source x is page v of thread t or is
      free, that page is nowhere else, and a victim frame f other than v is not the source. */
  ghost predicate RotationReady(c: seq<Cell>, v: nat, f: nat, x: nat, t: int) {
    && v < |c| && f < |c| && x < |c| && t != 0
    && Distinct(c)
    && (f != v ==> f != x && x != v)
    && (c[x].owner == 0 || LabelOf(c[x]) == Label(t, v))
    && (forall i :: 0 <= i < |c| && LabelOf(c[i]) == Label(t, v) ==> i == x)
  }

  /** Where the cell at j was before the rotation. */
  function From(v: nat, f: nat, x: nat, j: nat): nat {
    if j == v then x else if j == x then f else if j == f then v else j
  }

  /** Where it puts the cell at i. */
  function To(v: nat, f: nat, x: nat, i: nat): nat {
    if i == x then v else if i == f then x else if i == v then f else i
  }

  /** A safe rotation changes no label but that of the page brought in. */
  lemma RotatedFrom(c: seq<Cell>, v: nat, f: nat, x: nat, t: int, j: nat)
    requires RotationReady(c, v, f, x, t) && j < |c|
    requires BelongsAt(c[v], v) && BelongsAt(c[f], v)
    ensures var c', i := Rotated(c, v, f, x, t), From(v, f, x, j);
            && i < |c| && To(v, f, x, i) == j && (i == x <==> j == v)
            && c'[j].bytes == c[i].bytes
            && c'[j].owner == (if j == v then t else c[i].owner)
            && (c'[j].owner != 0 ==> LabelOf(c'[j]) == if j == v then Label(t, v) else LabelOf(c[i]))
  {
  }

  lemma SafeRotationStaysDistinct(c: seq<Cell>, v: nat, f: nat, x: nat, t: int)
    requires RotationReady(c, v, f, x, t)
    requires BelongsAt(c[v], v) && BelongsAt(c[f], v)
    ensures Distinct(Rotated(c, v, f, x, t))
  {
    var c' := Rotated(c, v, f, x, t);
    forall j, k | 0 <= j < k < |c'| && c'[j].owner != 0 && c'[k].owner != 0
      ensures LabelOf(c'[j]) != LabelOf(c'[k])
    {
      RotatedFrom(c, v, f, x, t, j);
      RotatedFrom(c, v, f, x, t, k);
    }
  }

  lemma SafeRotationKeeps(c: seq<Cell>, v: nat, f: nat, x: nat, t: int, l: Label)
    requires RotationReady(c, v, f, x, t)
    requires BelongsAt(c[v], v) && BelongsAt(c[f], v)
    requires Distinct(Rotated(c, v, f, x, t))
    requires l in Memory(c) && l != Label(t, v)
    ensures var m := Memory(Rotated(c, v, f, x, t)); l in m && m[l] == Memory(c)[l]
  {
    var i := PlaceOf(c, l);
    RotatedFrom(c, v, f, x, t, To(v, f, x, i));
    MemoryAt(Rotated(c, v, f, x, t), To(v, f, x, i));
  }

  lemma SafeRotationAddsNoOther(c: seq<Cell>, v: nat, f: nat, x: nat, t: int, l: Label)
    requires RotationReady(c, v, f, x, t)
    requires BelongsAt(c[v], v) && BelongsAt(c[f], v)
    requires Distinct(Rotated(c, v, f, x, t))
    requires l in Memory(Rotated(c, v, f, x, t)) && l != Label(t, v)
    ensures l in Memory(c)
  {
    var j := PlaceOf(Rotated(c, v, f, x, t), l);
    RotatedFrom(c, v, f, x, t, j);
    MemoryAt(c, From(v, f, x, j));
  }

  lemma SafeRotationIsTransparent(c: seq<Cell>, v: nat, f: nat, x: nat, t: int)
    requires RotationReady(c, v, f, x, t)
    requires BelongsAt(c[v], v) && BelongsAt(c[f], v)
    ensures Distinct(Rotated(c, v, f, x, t))
    ensures Memory(Rotated(c, v, f, x, t)) == Memory(c)[Label(t, v) := c[x].bytes]
  {
    SafeRotationStaysDistinct(c, v, f, x, t);
    var m, m' := Memory(c), Memory(Rotated(c, v, f, x, t));
    assert Label(t, v) in m' && m'[Label(t, v)] == c[x].bytes by {
      RotatedFrom(c, v, f, x, t, v);
      MemoryAt(Rotated(c, v, f, x, t), v);
    }
    forall l | l in m && l != Label(t, v) ensures l in m' && m'[l] == m[l] {
      SafeRotationKeeps(c, v, f, x, t, l);
    }
    forall l | l in m' && l != Label(t, v) ensures l in m {
      SafeRotationAddsNoOther(c, v, f, x, t, l);
    }
  }

  lemma UnsafeRotationLosesAPage(c: seq<Cell>, v: nat, f: nat, x: nat, t: int, i: nat)
    requires RotationReady(c, v, f, x, t)
    requires i == v || i == f
    requires !BelongsAt(c[i], v)
    ensures !Transparent(c, Rotated(c, v, f, x, t), Label(t, v))
  {
    var c' := Rotated(c, v, f, x, t);
    MemoryAt(c, i);
    if Transparent(c, c', Label(t, v)) {
      var j := PlaceOf(c', LabelOf(c[i]));
      assert false;
    }
  }

  // ---------- the theorem ----------

  predicate Adds(p: Path) {
    p.FreeFrame? || p.EmptyElsewhere? || p.ToSwap?
  }

  /** The pages that the handler marks as belonging to frame v do belong there. */
  predicate SafeMove(c: seq<Cell>, v: nat, p: Path, f: nat)
    requires v < |c| && f < |c|
  {
    match p
    case AlreadyHome => true
    case Exhausted => true
    case FreeFrame => c[v].home == v
    case _ => BelongsAt(c[v], v) && BelongsAt(c[f], v)
  }

  /** What path p does to the cells when thread t faults in frame v: victim f, source x. */
  ghost predicate Effect(c: seq<Cell>, c': seq<Cell>, v: nat, p: Path, f: nat, x: nat, t: int) {
    && v < |c| && f < |c| && x < |c| && t != 0
    && (f != v ==> f != x && x != v)
    && (p.Exhausted? || if Adds(p)
        then c[x].owner == 0 && forall i :: 0 <= i < |c| ==> LabelOf(c[i]) != Label(t, v)
        else LabelOf(c[x]) == Label(t, v))
    && match p
       case AlreadyHome => x == v && c' == c
       case Exhausted => c' == c
       case FreeFrame => x == v && c' == c[v := c[v].(owner := t)]
       case _ => c' == Rotated(c, v, f, x, t)
  }

  lemma NewPageIsNowhere(s: State, v: nat)
    requires s.Valid() && v < |s.ram| && Adds(PathOf(s, v))
    ensures forall i :: 0 <= i < |s.nodes| ==> LabelOf(s.CellAt(i)) != Label(s.currThread, v)
  {
    forall i | 0 <= i < |s.nodes| ensures LabelOf(s.CellAt(i)) != Label(s.currThread, v) {
      assert !Matches(s.nodes[i], PageOf(s.currThread, v));
    }
  }

  lemma SourceFits(s: State, v: nat)
    requires s.Valid() && v < |s.ram|
    ensures var p := PathOf(s, v);
            var x := Source(s, v, p);
            && (p.EmptyElsewhere? ==> x != v)
            && (p.InSwap? || p.ToSwap? ==> x >= |s.ram|)
            && (Adds(p) ==> s.nodes[x].threadid == 0)
            && (!Adds(p) && !p.Exhausted? ==> LabelOf(s.CellAt(x)) == Label(s.currThread, v))
  {
  }

  lemma FaultEffect(s: State, v: nat)
    requires s.Valid() && v < |s.ram|
    ensures var p := PathOf(s, v);
            Effect(s.Cells(), Fault(s, v).Cells(), v, p, Victim(s, v, p), Source(s, v, p), s.currThread)
  {
    var p := PathOf(s, v);
    SourceFits(s, v);
    if Adds(p) { NewPageIsNowhere(s, v); }
    TakeOnCells(s, v, p);
  }

  lemma ClaimedInPlace(c: seq<Cell>, v: nat, t: int)
    requires Distinct(c) && v < |c| && c[v].owner == 0 && t != 0
    requires forall i :: 0 <= i < |c| ==> LabelOf(c[i]) != Label(t, v)
    ensures var c' := c[v := c[v].(owner := t)];
            if c[v].home == v
            then Distinct(c') && Memory(c') == Memory(c)[Label(t, v) := c[v].bytes]
            else !Transparent(c, c', Label(t, v))
  {
    var c' := c[v := c[v].(owner := t)];
    if c[v].home == v {
      assert c' == Rotated(c, v, v, v, t);
      SafeRotationIsTransparent(c, v, v, v, t);
    } else if Transparent(c, c', Label(t, v)) {
      MemoryAt(c', v);
      var i := PlaceOf(c, LabelOf(c'[v]));
      assert false;
    }
  }

  lemma SafeEffectKeepsMemory(c: seq<Cell>, c': seq<Cell>, v: nat, p: Path, f: nat, x: nat, t: int)
    requires Effect(c, c', v, p, f, x, t) && Distinct(c)
    requires SafeMove(c, v, p, f)
    ensures Distinct(c')
    ensures Adds(p) ==> Label(t, v) !in Memory(c)
    ensures Memory(c') == if Adds(p) then Memory(c)[Label(t, v) := c[x].bytes] else Memory(c)
    ensures !p.Exhausted? ==> Label(t, v) in Memory(c')
  {
    if p.FreeFrame? {
      ClaimedInPlace(c, v, t);
    } else if !p.AlreadyHome? && !p.Exhausted? {
      SafeRotationIsTransparent(c, v, f, x, t);
    }
    if !Adds(p) && !p.Exhausted? {
      MemoryAt(c, x);
    }
  }

  lemma UnsafeEffectLosesAPage(c: seq<Cell>, c': seq<Cell>, v: nat, p: Path, f: nat, x: nat, t: int)
    requires Effect(c, c', v, p, f, x, t) && Distinct(c)
    requires !SafeMove(c, v, p, f)
    ensures !Transparent(c, c', Label(t, v))
  {
    if p.FreeFrame? {
      ClaimedInPlace(c, v, t);
    } else {
      UnsafeRotationLosesAPage(c, v, f, x, t, if BelongsAt(c[v], v) then f else v);
    }
  }

  lemma GrownMemoryIsTransparent(c: seq<Cell>, c': seq<Cell>, l: Label, b: Page)
    requires Distinct(c) && Distinct(c')
    requires Memory(c') == Memory(c) || (l !in Memory(c) && Memory(c') == Memory(c)[l := b])
    ensures Transparent(c, c', l)
  {
  }

  lemma EffectTransparentIffSafe(c: seq<Cell>, c': seq<Cell>, v: nat, p: Path, f: nat, x: nat, t: int)
    requires Effect(c, c', v, p, f, x, t) && Distinct(c)
    ensures Transparent(c, c', Label(t, v)) <==> SafeMove(c, v, p, f)
  {
    if SafeMove(c, v, p, f) {
      SafeEffectKeepsMemory(c, c', v, p, f, x, t);
      GrownMemoryIsTransparent(c, c', Label(t, v), c[x].bytes);
    } else {
      UnsafeEffectLosesAPage(c, c', v, p, f, x, t);
    }
  }

  predicate Safe(s: State, v: nat)
    requires s.Valid() && v < |s.ram|
  {
    var p := PathOf(s, v);
    SafeMove(s.Cells(), v, p, Victim(s, v, p))
  }

  /** A fault is transparent exactly when it is safe: when the page displaced from frame v, and the
      victim's page if one is evicted from another frame, both belong at frame v. */
  lemma FaultTransparentIffSafe(s: State, v: nat)
    requires s.Valid() && v < |s.ram| && Distinct(s.Cells())
    ensures Transparent(s.Cells(), Fault(s, v).Cells(), Label(s.currThread, v)) <==> Safe(s, v)
  {
    var p := PathOf(s, v);
    FaultEffect(s, v);
    EffectTransparentIffSafe(s.Cells(), Fault(s, v).Cells(), v, p, Victim(s, v, p), Source(s, v, p), s.currThread);
  }

  /** In the simple map a safe fault does nothing, or gives the thread the bytes found in a free place. */
  lemma SafeFaultKeepsMemory(s: State, v: nat)
    requires s.Valid() && v < |s.ram| && Distinct(s.Cells()) && Safe(s, v)
    ensures var p := PathOf(s, v);
            var c, c', l := s.Cells(), Fault(s, v).Cells(), Label(s.currThread, v);
            && Distinct(c')
            && (Adds(p) ==> l !in Memory(c))
            && Memory(c') == (if Adds(p) then Memory(c)[l := c[Source(s, v, p)].bytes] else Memory(c))
            && (!p.Exhausted? ==> l in Memory(c'))
  {
    var p := PathOf(s, v);
    FaultEffect(s, v);
    SafeEffectKeepsMemory(s.Cells(), Fault(s, v).Cells(), v, p, Victim(s, v, p), Source(s, v, p), s.currThread);
  }
}
