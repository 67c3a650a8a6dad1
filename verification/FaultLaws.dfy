/** Which path a page fault takes, and its whole net effect on nodes, bytes, protection and hand, in
    terms of the nodes alone. */
module FaultLaws {
  import opened PageTable
  import opened Eviction

  /** Frame v holds the running thread's page v, at home. */
  predicate Home(s: State, v: nat)
    requires v < |s.nodes|
  {
    s.nodes[v].threadid == s.currThread && s.nodes[v].retAddr == -1
  }

  /** Place i holds the running thread's page that belongs at frame v and lies elsewhere. */
  predicate Away(s: State, v: nat, i: nat)
    requires i < |s.nodes|
  {
    s.nodes[i].threadid == s.currThread && s.nodes[i].retAddr == v
  }

  ghost predicate NoneAway(s: State, v: nat, lo: nat, hi: nat)
    requires hi <= |s.nodes|
  {
    forall i :: lo <= i < hi ==> !Away(s, v, i)
  }

  ghost predicate NoneFree(s: State, lo: nat, hi: nat)
    requires hi <= |s.nodes|
  {
    forall i :: lo <= i < hi ==> s.nodes[i].threadid != 0
  }

  /** The conditions of the seven paths.  They exclude each other, and one of them always holds, so the
      conditions decide the path. */
  ghost predicate PathFits(s: State, v: nat, p: Path)
    requires s.Valid() && v < |s.ram| && InRange(s, p)
  {
    var n, all := |s.ram|, |s.nodes|;
    match p
    case AlreadyHome => Home(s, v)
    case Displaced(j) => !Home(s, v) && Away(s, v, j) && NoneAway(s, v, 0, j)
    case InSwap(k) => !Home(s, v) && Away(s, v, n + k) && NoneAway(s, v, 0, n + k)
    case FreeFrame => NoneAway(s, v, 0, all) && s.nodes[v].threadid == 0
    case EmptyElsewhere(j) =>
      && !Home(s, v) && NoneAway(s, v, 0, all)
      && s.nodes[v].threadid != 0 && s.nodes[j].threadid == 0 && NoneFree(s, 0, j)
    case ToSwap(k) =>
      && !Home(s, v) && NoneAway(s, v, 0, all)
      && s.nodes[n + k].threadid == 0 && NoneFree(s, 0, n + k)
    case Exhausted => !Home(s, v) && NoneAway(s, v, 0, all) && NoneFree(s, 0, all)
  }

  lemma PathIs(s: State, v: nat, p: Path)
    requires s.Valid() && v < |s.ram| && InRange(s, p)
    ensures p == PathOf(s, v) <==> PathFits(s, v, p)
  {
    PathOfFits(s, v);
    if PathFits(s, v, p) {
      hide PathOf, InRange;
      OnePathFits(s, v, p, PathOf(s, v));
    }
  }

  lemma PathOfFits(s: State, v: nat)
    requires s.Valid() && v < |s.ram|
    ensures PathFits(s, v, PathOf(s, v))
  {
  }

  lemma OnePathFits(s: State, v: nat, p: Path, q: Path)
    requires s.Valid() && v < |s.ram| && InRange(s, p) && InRange(s, q)
    requires PathFits(s, v, p) && PathFits(s, v, q)
    ensures p == q
  {
  }

  // ---------- the net effect ----------

  /** The bytes of frame j come to frame v, whose page is now home; what was in v goes to j. */
  predicate MovedFrom(s: State, r: State, v: nat, j: nat)
    requires s.Valid() && v < |s.ram| && j < |s.ram|
  {
    r == s.(nodes := s.nodes[j := PageNode(s.nodes[v].threadid, v, s.nodes[v].referenceBit)][v := PageNode(s.currThread, -1, true)],
            ram := s.ram[j := s.ram[v]][v := s.ram[j]],
            open := s.open[v := true][j := false])
  }

  /** The bytes of slot k come to frame v, the page of v to frame f, and that of f to the slot, whose bit
      is now set; e are the nodes after the clock.  The bit of v is clear: the page brought in has not
      been given one. */
  predicate MovedThrough(s: State, e: seq<PageNode>, r: State, v: nat, f: nat, k: nat)
    requires s.Valid() && |e| == |s.nodes| && v < |s.ram| && f < |s.ram| && k < |s.swapFile|
  {
    r == s.(nodes := e[f := PageNode(e[v].threadid, v, e[v].referenceBit)]
                      [|s.ram| + k := PageNode(e[f].threadid, v, true)]
                      [v := PageNode(s.currThread, -1, false)],
            ram := s.ram[f := s.ram[v]][v := s.swapFile[k]],
            swapFile := s.swapFile[k := s.ram[f]],
            open := s.open[f := false][v := true],
            hand := (f + 1) % |s.ram|)
  }

  /** A slot in use has its bit set before the clock is asked. */
  function SlotTouched(s: State, k: nat): (r: State)
    requires s.Valid() && k < |s.swapFile|
    ensures r.Valid() && |r.ram| == |s.ram| && |r.nodes| == |s.nodes|
  {
    s.(nodes := s.nodes[|s.ram| + k := s.nodes[|s.ram| + k].(referenceBit := true)])
  }

  /** The clock takes c steps in state s, which leaves nodes e and chooses f. */
  ghost predicate Clock(s: State, c: nat, e: seq<PageNode>, f: nat)
    requires s.Valid()
  {
    Chosen(s, c) && ClearedBy(s, c, e) && f == (s.hand + c) % |s.ram|
  }

  /** Everything that a fault changes.  In the paths that need a victim f the clock takes c steps. */
  lemma FaultIs(s: State, v: nat) returns (c: nat, e: seq<PageNode>, f: nat)
    requires s.Valid() && v < |s.ram|
    ensures f < |s.ram| && |e| == |s.nodes|
    ensures var r := Fault(s, v);
            match PathOf(s, v)
            case AlreadyHome => r == s.(nodes := s.nodes[v := PageNode(s.currThread, -1, true)], open := s.open[v := true])
            case Displaced(j) => MovedFrom(s, r, v, j)
            case InSwap(k) => var s1 := SlotTouched(s, k); Clock(s1, c, e, f) && MovedThrough(s1, e, r, v, f, k)
            case FreeFrame =>
              r == s.(nodes := s.nodes[v := PageNode(s.currThread, s.nodes[v].retAddr, true)], open := s.open[v := true])
            case EmptyElsewhere(j) => MovedFrom(s, r, v, j)
            case ToSwap(k) => Clock(s, c, e, f) && MovedThrough(s, e, r, v, f, k)
            case Exhausted => Clock(s, c, e, f) && r == s.(nodes := e, hand := (f + 1) % |s.ram|)
  {
    hide Evict, Take, Clock, MovedFrom, MovedThrough;
    var p := PathOf(s, v);
    PathOfFits(s, v);
    hide PathOf;
    c, e, f := 0, s.nodes, v;
    match p
    case AlreadyHome => InPlaceIs(s, v);
    case FreeFrame => InPlaceIs(s, v);
    case Displaced(j) => FromFrameIs(s, v, j);
    case EmptyElsewhere(j) => FromFrameIs(s, v, j);
    case InSwap(k) => c, e, f := FetchIs(s, v, k);
    case ToSwap(k) => c, e, f := ClaimIs(s, v, k);
    case Exhausted => c, e, f := NothingIs(s, v);
  }

  lemma InPlaceIs(s: State, v: nat)
    requires s.Valid() && v < |s.ram|
    ensures Home(s, v) ==>
              Take(s, v, AlreadyHome) == s.(nodes := s.nodes[v := PageNode(s.currThread, -1, true)], open := s.open[v := true])
    ensures Take(s, v, FreeFrame) ==
              s.(nodes := s.nodes[v := PageNode(s.currThread, s.nodes[v].retAddr, true)], open := s.open[v := true])
  {
  }

  lemma FromFrameIs(s: State, v: nat, j: nat)
    requires s.Valid() && v < |s.ram| && j < |s.ram|
    ensures s.nodes[j].threadid == s.currThread ==> MovedFrom(s, Take(s, v, Displaced(j)), v, j)
    ensures v != j ==> MovedFrom(s, Take(s, v, EmptyElsewhere(j)), v, j)
  {
  }

  lemma ClockIs(s: State) returns (c: nat, e: seq<PageNode>, f: nat)
    requires s.Valid()
    ensures f < |s.ram| && |e| == |s.nodes| && Clock(s, c, e, f)
    ensures Evict(s).0 == s.(nodes := e, hand := (f + 1) % |s.ram|) && Evict(s).1 == f
  {
    c := EvictIsChosen(s);
    e, f := Evict(s).0.nodes, Evict(s).1;
    hide Chosen, ClearedBy, Evict;
  }

  lemma BringInIs(s: State, e: seq<PageNode>, v: nat, f: nat, k: nat, s2: State)
    requires s.Valid() && v < |s.ram| && f < |s.ram| && k < |s.swapFile| && |e| == |s.nodes| && s2.Valid()
    requires s2 == s.(nodes := s2.nodes, hand := (f + 1) % |s.ram|)
    requires s2.nodes == e[|s.ram| + k := s2.nodes[|s.ram| + k]]
    requires s2.nodes[|s.ram| + k].threadid == s.currThread && s2.nodes[|s.ram| + k].referenceBit && !e[f].referenceBit
    ensures MovedThrough(s, e, BringIn(s2, v, f, k), v, f, k)
  {
  }

  lemma FetchIs(s: State, v: nat, k: nat) returns (c: nat, e: seq<PageNode>, f: nat)
    requires s.Valid() && v < |s.ram| && k < |s.swapFile| && s.nodes[|s.ram| + k].threadid == s.currThread
    ensures f < |s.ram| && |e| == |s.nodes|
    ensures var s1 := SlotTouched(s, k); Clock(s1, c, e, f) && MovedThrough(s1, e, Take(s, v, InSwap(k)), v, f, k)
  {
    hide Evict, BringIn, Clock, MovedThrough;
    var s1 := SlotTouched(s, k);
    assert s1 == Touch(s, |s.ram| + k);
    c, e, f := ClockIs(s1);
    BitsAfter(s1, |s.ram| + k);
    BringInIs(s1, e, v, f, k, Evict(s1).0);
  }

  /** The clock leaves slots alone, and the victim's bit clear. */
  lemma BitsAfter(s: State, i: nat)
    requires s.Valid() && |s.ram| <= i < |s.nodes|
    ensures Evict(s).0.nodes[i] == s.nodes[i] && !Evict(s).0.nodes[Evict(s).1].referenceBit
  {
    EvictionRounds(s);
  }

  lemma ClaimIs(s: State, v: nat, k: nat) returns (c: nat, e: seq<PageNode>, f: nat)
    requires s.Valid() && v < |s.ram| && k < |s.swapFile|
    ensures f < |s.ram| && |e| == |s.nodes|
    ensures Clock(s, c, e, f) && MovedThrough(s, e, Take(s, v, ToSwap(k)), v, f, k)
  {
    hide Evict, BringIn, Clock, MovedThrough;
    c, e, f := ClockIs(s);
    BitsAfter(s, |s.ram| + k);
    BringInIs(s, e, v, f, k, Claim(Evict(s).0, |s.ram| + k));
  }

  lemma NothingIs(s: State, v: nat) returns (c: nat, e: seq<PageNode>, f: nat)
    requires s.Valid() && v < |s.ram|
    ensures f < |s.ram| && |e| == |s.nodes|
    ensures Clock(s, c, e, f) && Take(s, v, Exhausted) == s.(nodes := e, hand := (f + 1) % |s.ram|)
  {
    hide Evict, Clock;
    c, e, f := ClockIs(s);
  }

  /** After a fault the faulted frame holds a page marked as used if it lay in a frame or was claimed
      there; a page that came from the swap file is not marked. */
  lemma FaultSetsBit(s: State, v: nat)
    requires s.Valid() && v < |s.ram| && !PathOf(s, v).Exhausted?
    ensures Fault(s, v).nodes[v].threadid == s.currThread
    ensures Fault(s, v).nodes[v].referenceBit <==> !PathOf(s, v).InSwap? && !PathOf(s, v).ToSwap?
  {
    hide Fault, PathOf, Clock;
    var c, e, f := FaultIs(s, v);
  }
}
