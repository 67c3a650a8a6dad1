/** Laws of the fault handler that hold on every path: pages are conserved, the pages of other
    threads stay closed, and the page budget leaves room for every page it promises. */
module PagingLaws {
  import opened PageTable
  import opened Eviction
  import opened Transparency

  // ---------- conservation ----------

  /** Who holds which bytes, forgetting where they lie. */
  function Holdings(c: seq<Cell>): seq<(int, Page)> {
    seq(|c|, i requires 0 <= i < |c| => (c[i].owner, c[i].bytes))
  }

  lemma ExchangeKeepsMultiset<T>(h: seq<T>, i: nat, j: nat)
    requires i < |h| && j < |h|
    ensures multiset(h[i := h[j]][j := h[i]]) == multiset(h)
  {
  }

  lemma RotationConserves(c: seq<Cell>, v: nat, f: nat, x: nat, t: int)
    requires v < |c| && f < |c| && x < |c| && (f != v ==> f != x && x != v)
    ensures multiset(Holdings(Rotated(c, v, f, x, t))) ==
              multiset(Holdings(c)) - multiset{(c[x].owner, c[x].bytes)} + multiset{(t, c[x].bytes)}
  {
    hide Rotated;
    var h := Holdings(c);
    var h1 := h[v := h[f]][f := h[v]];
    var h2 := h1[v := h1[x]][x := h1[v]];
    hide Holdings;
    ExchangeKeepsMultiset(h, v, f);
    ExchangeKeepsMultiset(h1, v, x);
    HoldingsOfRotated(c, v, f, x, t);
    ChangeInMultiset(h2, v, (t, c[x].bytes));
  }

  /** Two exchanges, and the new owner. */
  lemma HoldingsOfRotated(c: seq<Cell>, v: nat, f: nat, x: nat, t: int)
    requires v < |c| && f < |c| && x < |c| && (f != v ==> f != x && x != v)
    ensures |Holdings(c)| == |c|
    ensures var h := Holdings(c);
            var h1 := h[v := h[f]][f := h[v]];
            var h2 := h1[v := h1[x]][x := h1[v]];
            h2[v] == (c[x].owner, c[x].bytes) && Holdings(Rotated(c, v, f, x, t)) == h2[v := (t, c[x].bytes)]
  {
  }

  lemma ChangeInMultiset<T>(h: seq<T>, i: nat, n: T)
    requires i < |h|
    ensures multiset(h[i := n]) == multiset(h) - multiset{h[i]} + multiset{n}
  {
  }

  /** Whatever page faults and whoever is evicted, no bytes get lost or change hands: at most the
      bytes of one free place become the running thread's. */
  lemma FaultConservesPages(s: State, v: nat)
    requires s.Valid() && v < |s.ram|
    ensures var p := PathOf(s, v);
            var h, h' := multiset(Holdings(s.Cells())), multiset(Holdings(Fault(s, v).Cells()));
            if Adds(p) then
              var b := s.Cells()[Source(s, v, p)].bytes;
              (0, b) in h && h' == h - multiset{(0, b)} + multiset{(s.currThread, b)}
            else h' == h
  {
    var p := PathOf(s, v);
    FaultEffect(s, v);
    EffectConserves(s.Cells(), Fault(s, v).Cells(), v, p, Victim(s, v, p), Source(s, v, p), s.currThread);
  }

  lemma EffectConserves(c: seq<Cell>, c': seq<Cell>, v: nat, p: Path, f: nat, x: nat, t: int)
    requires Effect(c, c', v, p, f, x, t)
    ensures var h, h' := multiset(Holdings(c)), multiset(Holdings(c'));
            if Adds(p) then (0, c[x].bytes) in h && h' == h - multiset{(0, c[x].bytes)} + multiset{(t, c[x].bytes)}
            else h' == h
  {
    assert Holdings(c)[x] == (c[x].owner, c[x].bytes);
    if p.FreeFrame? {
      assert Holdings(c') == Holdings(c)[v := (t, c[v].bytes)];
    } else if !p.AlreadyHome? && !p.Exhausted? {
      RotationConserves(c, v, f, x, t);
    }
  }

  // ---------- isolation ----------

  /** Every open frame holds a page of thread t. */
  ghost predicate OpenAreOf(c: seq<Cell>, open: seq<bool>, t: int) {
    && |open| <= |c|
    && forall i :: 0 <= i < |open| && open[i] ==> c[i].owner == t
  }

  /** Every open frame i holds page i of thread t. */
  ghost predicate OpenAreHomeOf(c: seq<Cell>, open: seq<bool>, t: int) {
    && |open| <= |c|
    && forall i :: 0 <= i < |open| && open[i] ==> LabelOf(c[i]) == Label(t, i)
  }

  /** A thread can touch its own pages only. */
  ghost predicate Isolated(s: State)
    requires s.Valid()
  {
    OpenAreOf(s.Cells(), s.open, s.currThread)
  }

  ghost predicate OpenAtHome(s: State)
    requires s.Valid()
  {
    OpenAreHomeOf(s.Cells(), s.open, s.currThread)
  }

  /** A fault opens frame v at most and closes the frames that it moves other contents to. */
  ghost predicate OpenEffect(open: seq<bool>, open': seq<bool>, v: nat, p: Path, f: nat, x: nat) {
    && |open'| == |open| && v < |open|
    && (forall i :: 0 <= i < |open| && open'[i] && i != v ==> open[i])
    && (!p.AlreadyHome? && !p.Exhausted? ==>
          forall i :: 0 <= i < |open| && open'[i] && i != v ==> i != f && i != x)
    && open'[v] == if p.Exhausted? then open[v] else p != Displaced(v)
  }

  lemma BringInOpens(s: State, v: nat, f: nat, k: nat, x: nat)
    requires s.Valid() && v < |s.ram| && f < |s.ram| && k < |s.swapFile| && x == |s.ram| + k
    ensures OpenEffect(s.open, BringIn(s, v, f, k).open, v, InSwap(k), f, x)
    ensures OpenEffect(s.open, BringIn(s, v, f, k).open, v, ToSwap(k), f, x)
  {
  }

  lemma TakeOpens(s: State, v: nat, p: Path)
    requires s.Valid() && v < |s.ram| && InRange(s, p)
    requires p.EmptyElsewhere? ==> p.frame != v
    ensures OpenEffect(s.open, Take(s, v, p).open, v, p, Victim(s, v, p), Source(s, v, p))
    ensures Take(s, v, p).currThread == s.currThread
  {
    hide Evict, OpenEffect, Take;
    match p
    case InSwap(k) => FetchOpens(s, v, k);
    case ToSwap(k) => ClaimOpens(s, v, k);
    case _ => OtherOpens(s, v, p);
  }

  lemma FetchOpens(s: State, v: nat, k: nat)
    requires s.Valid() && v < |s.ram| && k < |s.swapFile|
    ensures var p, r := InSwap(k), Take(s, v, InSwap(k));
            OpenEffect(s.open, r.open, v, p, Victim(s, v, p), Source(s, v, p)) && r.currThread == s.currThread
  {
    hide Evict, OpenEffect, BringIn;
    var (s1, f, _) := Evict(Touch(s, |s.ram| + k));
    BringInOpens(s1, v, f, k, |s.ram| + k);
  }

  lemma ClaimOpens(s: State, v: nat, k: nat)
    requires s.Valid() && v < |s.ram| && k < |s.swapFile|
    ensures var p, r := ToSwap(k), Take(s, v, ToSwap(k));
            OpenEffect(s.open, r.open, v, p, Victim(s, v, p), Source(s, v, p)) && r.currThread == s.currThread
  {
    hide Evict, OpenEffect, BringIn;
    var (s1, f, _) := Evict(s);
    BringInOpens(Claim(s1, |s.ram| + k), v, f, k, |s.ram| + k);
  }

  lemma OtherOpens(s: State, v: nat, p: Path)
    requires s.Valid() && v < |s.ram| && InRange(s, p) && !p.InSwap? && !p.ToSwap?
    requires p.EmptyElsewhere? ==> p.frame != v
    ensures OpenEffect(s.open, Take(s, v, p).open, v, p, Victim(s, v, p), Source(s, v, p))
    ensures Take(s, v, p).currThread == s.currThread
  {
    hide Evict;
  }

  lemma FaultOpens(s: State, v: nat)
    requires s.Valid() && v < |s.ram|
    ensures var p := PathOf(s, v);
            OpenEffect(s.open, Fault(s, v).open, v, p, Victim(s, v, p), Source(s, v, p))
    ensures Fault(s, v).currThread == s.currThread
  {
    SourceFits(s, v);
    TakeOpens(s, v, PathOf(s, v));
  }

  lemma EffectKeepsOpenAreOf(c: seq<Cell>, c': seq<Cell>, o: seq<bool>, o': seq<bool>, v: nat, p: Path, f: nat, x: nat, t: int)
    requires Effect(c, c', v, p, f, x, t) && OpenEffect(o, o', v, p, f, x) && OpenAreOf(c, o, t)
    ensures OpenAreOf(c', o', t)
    ensures !p.Exhausted? ==> c'[v].owner == t
  {
    if !p.AlreadyHome? && !p.Exhausted? {
      forall i | 0 <= i < |c| && i != v && i != f && i != x ensures c'[i] == c[i] {}
    }
  }

  /** No path of the handler opens another thread's page, not even where it loses track of one,
      and the faulted frame becomes the running thread's unless no place is free. */
  lemma FaultKeepsIsolation(s: State, v: nat)
    requires s.Valid() && v < |s.ram| && Isolated(s)
    ensures var p, s' := PathOf(s, v), Fault(s, v);
            && Isolated(s')
            && |s'.open| == |s.open|
            && (!p.Exhausted? ==> s'.Cells()[v].owner == s.currThread)
            && (!p.Exhausted? && p != Displaced(v) ==> s'.open[v])
  {
    var p, s' := PathOf(s, v), Fault(s, v);
    FaultEffect(s, v);
    FaultOpens(s, v);
    EffectKeepsOpenAreOf(s.Cells(), s'.Cells(), s.open, s'.open, v, p, Victim(s, v, p), Source(s, v, p), s.currThread);
  }

  lemma EffectKeepsOpenAreHomeOf(c: seq<Cell>, c': seq<Cell>, o: seq<bool>, o': seq<bool>, v: nat, p: Path, f: nat, x: nat, t: int)
    requires Effect(c, c', v, p, f, x, t) && OpenEffect(o, o', v, p, f, x) && OpenAreHomeOf(c, o, t)
    requires SafeMove(c, v, p, f)
    ensures OpenAreHomeOf(c', o', t)
    ensures !p.Exhausted? ==> LabelOf(c'[v]) == Label(t, v)
  {
    if !p.AlreadyHome? && !p.Exhausted? {
      forall i | 0 <= i < |c| && i != v && i != f && i != x ensures c'[i] == c[i] {}
    }
  }

  lemma SafeFaultKeepsOpenAtHome(s: State, v: nat)
    requires s.Valid() && v < |s.ram| && OpenAtHome(s) && Safe(s, v)
    ensures OpenAtHome(Fault(s, v))
    ensures !PathOf(s, v).Exhausted? ==> LabelOf(Fault(s, v).Cells()[v]) == Label(s.currThread, v)
  {
    var p, s' := PathOf(s, v), Fault(s, v);
    FaultEffect(s, v);
    FaultOpens(s, v);
    EffectKeepsOpenAreHomeOf(s.Cells(), s'.Cells(), s.open, s'.open, v, p, Victim(s, v, p), Source(s, v, p), s.currThread);
  }

  /** No page that the running thread has open lies past the first free frame, where the walk of
      `protectPages` ends. */
  ghost predicate OpenWithinReach(s: State)
    requires s.Valid()
  {
    forall i :: 0 <= i < |s.open| && s.open[i] ==> i < Reach(s)
  }

  /** Switching to another thread isolates it exactly when the walk reaches every open page. */
  lemma SwitchIsolatesIffReached(s: State, next: int, exiting: bool)
    requires s.Valid() && Isolated(s) && next != 0 && next != s.currThread
    ensures Isolated(Switch(s, next, exiting)) <==> OpenWithinReach(s)
  {
    var s' := Switch(s, next, exiting);
    if !OpenWithinReach(s) {
      var i :| 0 <= i < |s.open| && s.open[i] && i >= Reach(s);
      assert s'.open[i] && s'.nodes[i] == s.nodes[i];
    }
  }
}
