/** Whole runs of the scheduler: its invariant, and a bound on waiting. */
module SchedulingRuns {
  import opened RefillSelection
  import opened Scheduling

  // ---------- the invariant ----------

  /** The threads wait where their priority says; nobody is executing. */
  ghost predicate Placed(s: State) {
    && |s.queues| == LEVELS
    && (forall k, i :: 0 <= k < LEVELS && 0 <= i < |s.queues[k]| ==> s.queues[k][i].priority == k)
    && (forall k :: 0 <= k < LEVELS ==> Waiting(s.queues[k]))
    && Waiting(s.run)
  }

  lemma EnqueueKeepsPlaced(s: State, t: Thread)
    requires Placed(s) && Aged(t) && t.status == Ready
    ensures Placed(Enqueue(s, t))
  {
    var q, q' := s.queues[t.priority], Enqueue(s, t).queues[t.priority];
    forall i | 0 <= i < |q'| ensures q'[i].status == Ready && Aged(q'[i]) && q'[i].priority == t.priority {
      if i < |q| { assert q'[i] == q[i]; }
    }
  }

  lemma RefillKeepsPlaced(s: State)
    requires Placed(s)
    ensures Placed(Refill(s)) && Refill(s).nextId == s.nextId
  {
    hide Counts, Aged;
  }

  /** What the head thread may be when it calls the scheduler. */
  ghost predicate Callable(s: State) {
    && s.run != [] && Aged(s.run[0]) && Placed(s.(run := s.run[1..]))
  }

  lemma RetireKeepsPlaced(s: State, wholeSlice: bool)
    requires Callable(s)
    ensures Placed(Retire(s, wholeSlice))
  {
    hide Aged, Placed;
    ReturnedStaysAged(s.run[0], wholeSlice);
    if s.run[0].status != Exited {
      EnqueueKeepsPlaced(s.(run := s.run[1..]), Returned(s.run[0], wholeSlice));
    }
  }

  lemma ScheduleKeepsInvariant(s: State, wholeSlice: bool)
    requires Callable(s)
    requires forall x :: x in Live(s) ==> x < s.nextId && Live(s)[x] == 1
    ensures var r := Schedule(s, wholeSlice);
            if r.run != [] then Invariant(r) else Live(r) == multiset{} && s.run[0].status == Exited
  {
    hide Live, Refill, Retire, Invariant, Waiting;
    var s1 := Retire(s, wholeSlice);
    hide Aged, Placed;
    assert s1.nextId == s.nextId by { RetireKeepsNextId(s, wholeSlice); }
    RetireKeepsPlaced(s, wholeSlice);
    ScheduleConserves(s, wholeSlice);
    DispatchedRuns(if s1.run == [] then Refill(s1) else s1);
    if s1.run == [] {
      RefillKeepsPlaced(s1);
      RefillConserves(s1);
      if Refill(s1).run == [] { EmptyRefill(s1, s, wholeSlice); }
      DispatchedInvariant(Refill(s1), Live(s), s.nextId);
    } else {
      DispatchedInvariant(s1, Live(s), s.nextId);
    }
  }

  lemma RetireKeepsNextId(s: State, wholeSlice: bool)
    requires |s.queues| == LEVELS && s.run != [] && s.run[0].priority < LEVELS
    ensures Retire(s, wholeSlice).nextId == s.nextId
  {
  }

  lemma EmptyRefill(s1: State, s: State, wholeSlice: bool)
    requires |s.queues| == LEVELS && s.run != [] && s.run[0].priority < LEVELS && Aged(s.run[0])
    requires s1 == Retire(s, wholeSlice) && s1.run == [] && Refill(s1).run == []
    ensures s.run[0].status == Exited && Live(Refill(s1)) == multiset{}
  {
    hide Live, Refill, Retire, Aged;
    NothingLeft(s1);
    if s.run[0].status != Exited {
      RetiredIsQueued(s, wholeSlice);
    }
  }

  lemma RetiredIsQueued(s: State, wholeSlice: bool)
    requires |s.queues| == LEVELS && s.run != [] && Aged(s.run[0]) && s.run[0].status != Exited
    ensures var k := Returned(s.run[0], wholeSlice).priority;
            k < LEVELS && Retire(s, wholeSlice).queues[k] != []
  {
    ReturnedStaysAged(s.run[0], wholeSlice);
  }

  lemma DispatchedInvariant(s: State, was: multiset<nat>, n: nat)
    requires Placed(s) && s.nextId == n && Live(Dispatch(s)) <= was
    requires forall x :: x in was ==> x < n && was[x] == 1
    ensures s.run != [] ==> Invariant(Dispatch(s))
  {
    if s.run != [] {
      assert Dispatch(s).run[1..] == s.run[1..];
      assert Aged(s.run[0]);
    }
  }

  lemma RefillTakes(s: State)
    requires |s.queues| == LEVELS && s.run == []
    ensures |Refill(s).run| == Counts(s).p0 + Counts(s).p1 + Counts(s).p2
  {
    hide Counts;
  }

  lemma NothingLeft(s: State)
    requires |s.queues| == LEVELS && s.run == [] && Refill(s).run == []
    ensures forall k :: 0 <= k < LEVELS ==> s.queues[k] == []
    ensures Live(Refill(s)) == multiset{}
  {
    hide Select, Live, Refill;
    SelectionLaws(|s.queues[0]|, |s.queues[1]|, |s.queues[2]|);
    RefillTakes(s);
    assert Counts(s) == Pick(0, 0, 0);
    RefillConserves(s);
    NobodyLive(s);
  }

  lemma NobodyLive(s: State)
    requires |s.queues| == LEVELS && s.run == []
    ensures (forall k :: 0 <= k < LEVELS ==> s.queues[k] == []) ==> Live(s) == multiset{}
  {
  }

  lemma CreateKeepsInvariant(s: State)
    requires Invariant(s)
    ensures Next(s, Create).run != [] && Invariant(Next(s, Create))
  {
    var t, rest := Thread(s.nextId, 0, 0, Ready), s.(run := s.run[1..]);
    EnqueueConserves(s, t);
    EnqueueKeepsPlaced(rest, t);
    assert Enqueue(rest, t) == Enqueue(s, t).(run := s.run[1..]);
    assert Callable(Admit(s));
    hide Live, Schedule, Placed, Aged, Enqueue;
    ScheduleKeepsInvariant(Admit(s), false);
  }

  lemma ExitKeepsInvariant(s: State)
    requires Invariant(s)
    ensures var r := Next(s, Exit);
            if r.run != [] then Invariant(r) else Live(r) == multiset{}
  {
    hide Live, Schedule, Placed, Aged, Callable;
    ExitIsCallable(s);
    ScheduleKeepsInvariant(s.(run := s.run[0 := s.run[0].(status := Exited)]), false);
  }

  lemma ExitIsCallable(s: State)
    requires Invariant(s)
    ensures var s1 := s.(run := s.run[0 := s.run[0].(status := Exited)]);
            |s1.queues| == LEVELS && Callable(s1) && Live(s1) == Live(s)
  {
    hide Live;
    var s1 := s.(run := s.run[0 := s.run[0].(status := Exited)]);
    assert s1.run[1..] == s.run[1..];
    SameLive(s, s1);
  }

  lemma SameLive(s: State, s1: State)
    requires |s.queues| == LEVELS && s.queues == s1.queues && |s.run| == |s1.run|
    requires forall i :: 0 <= i < |s.run| ==> s.run[i].id == s1.run[i].id
    ensures Live(s) == Live(s1)
  {
    assert Ids(s.run) == Ids(s1.run);
  }

  /** Every step keeps the invariant, or ends the process when the last thread exits. */
  lemma StepKeepsInvariant(s: State, e: Event)
    requires Invariant(s)
    ensures var r := Next(s, e);
            if r.run != [] then Invariant(r) else Live(r) == multiset{} && e == Exit
  {
    hide Live, Schedule, Aged;
    match e
    case Create => CreateKeepsInvariant(s);
    case Exit => ExitKeepsInvariant(s);
    case Yield => ScheduleKeepsInvariant(s, false);
    case Timer => ScheduleKeepsInvariant(s, true);
  }

  /** The first call of the scheduler: the main thread, number 1, joins the threads already queued. */
  lemma FirstScheduleStarts(s: State)
    requires Placed(s) && s.run == [] && 1 < s.nextId && 1 !in Live(s)
    requires forall x :: x in Live(s) ==> x < s.nextId && Live(s)[x] == 1
    ensures FirstSchedule(s).run != [] && Invariant(FirstSchedule(s))
    ensures Live(FirstSchedule(s)) == Live(s) + multiset{1}
  {
    hide Live, Refill, Dispatch, Invariant, Waiting;
    var s1 := s.(queues := s.queues[0 := [Thread(1, 0, 0, Ready)] + s.queues[0]]);
    MainJoins(s);
    RefillKeepsPlaced(s1);
    RefillConserves(s1);
    if Refill(s1).run == [] { NothingLeft(s1); }
    DispatchConserves(Refill(s1));
    DispatchedInvariant(Refill(s1), Live(s1), s.nextId);
    DispatchedRuns(Refill(s1));
  }

  lemma MainJoins(s: State)
    requires Placed(s)
    ensures var s1 := s.(queues := s.queues[0 := [Thread(1, 0, 0, Ready)] + s.queues[0]]);
            |s1.queues| == LEVELS && s1.queues[0] != [] && Placed(s1) && Live(s1) == Live(s) + multiset{1}
  {
    var t := Thread(1, 0, 0, Ready);
    assert Aged(t);
    IdsJoin([t], s.queues[0]);
    assert Ids([t]) == [1];
    hide Aged, Ids;
  }

  lemma DispatchedRuns(s: State)
    ensures s.run != [] ==> Dispatch(s).run != []
  {
  }

  // ---------- runs ----------

  /** The state after a run; it stays as it is once the process has ended. */
  ghost function Run(s: State, es: seq<Event>): (r: State)
    requires s.run == [] || Invariant(s)
    ensures r.run == [] || Invariant(r)
    decreases |es|
  {
    if es == [] || s.run == [] then s else
      StepKeepsInvariant(s, es[0]);
      Run(Next(s, es[0]), es[1..])
  }

  /** A run of one event more. */
  lemma {:induction false} RunSplit(s: State, es: seq<Event>, j: nat)
    requires Invariant(s) && j < |es| && Next(s, es[0]).run != []
    ensures Invariant(Next(s, es[0]))
    ensures Run(s, es[..j + 1]) == Run(Next(s, es[0]), es[1..][..j])
  {
    StepKeepsInvariant(s, es[0]);
    assert es[..j + 1][1..] == es[1..][..j];
  }

  /** Thread x is executing after j events of the run, and event j is its exit. */
  ghost predicate ExitsAt(s: State, es: seq<Event>, x: nat, j: nat)
    requires Invariant(s)
  {
    j < |es| && es[j] == Exit && var r := Run(s, es[..j]); r.run != [] && r.run[0].id == x
  }

  /** Over whole runs no thread but an exiting one ever leaves: a live thread is either still live,
      in exactly one place, or was executing when it exited. */
  lemma {:induction false} OnlyExitLeaves(s: State, es: seq<Event>, x: nat)
    requires Invariant(s) && x in Live(s)
    ensures var r := Run(s, es);
            (r.run != [] && Live(r)[x] == 1) || exists j :: ExitsAt(s, es, x, j)
    decreases |es|
  {
    hide Next, Live;
    if es == [] {
      LiveOnce(s, x);
    } else if es[0] == Exit && s.run[0].id == x {
      assert Run(s, es[..0]) == s;
      assert ExitsAt(s, es, x, 0);
    } else {
      var s1 := Next(s, es[0]);
      StepKeepsInvariant(s, es[0]);
      StepConserves(s, es[0]);
      OnlyExitLeaves(s1, es[1..], x);
      if j: nat :| ExitsAt(s1, es[1..], x, j) {
        RunSplit(s, es, j);
        assert ExitsAt(s, es, x, j + 1);
      }
    }
  }

  lemma LiveOnce(s: State, x: nat)
    requires Invariant(s) && x in Live(s)
    ensures s.run != [] && Live(s)[x] == 1
  {
  }

  // ---------- bounded waiting ----------

  datatype Place = InRun(pos: nat) | InQueue(level: nat, pos: nat)

  ghost predicate At(s: State, p: Place, id: nat)
    requires |s.queues| == LEVELS
  {
    match p
    case InRun(i) => i < |s.run| && s.run[i].id == id
    case InQueue(l, k) => l < LEVELS && k < |s.queues[l]| && s.queues[l][k].id == id
  }

  /** How many threads of a level a refill takes at least, if there are so many. */
  function Quota(level: nat): nat {
    if level == 0 then 4 else if level == 1 then 2 else 1
  }

  /** How many scheduler steps a thread at place p waits at most to execute. */
  function Bound(s: State, p: Place): nat {
    match p
    case InRun(i) => i
    case InQueue(l, k) => |s.run| + 12 * (k / Quota(l)) + 11
  }

  /** What a refill of an empty running queue does to the thread at position k of level l. */
  lemma RefillPlaces(s: State, l: nat, k: nat)
    requires |s.queues| == LEVELS && s.run == [] && l < LEVELS && k < |s.queues[l]|
    ensures var r, c := Refill(s), Counts(s);
            if k < c.Of(l) then
              var i := k + (if l == 0 then 0 else c.p0) + (if l == 2 then c.p1 else 0);
              i < |r.run| && r.run[i] == s.queues[l][k]
            else k - c.Of(l) < |r.queues[l]| && r.queues[l][k - c.Of(l)] == s.queues[l][k]
  {
    hide Counts;
  }

  lemma RefillSize(s: State)
    requires |s.queues| == LEVELS && s.run == []
    ensures |Refill(s).run| <= 12
    ensures forall l :: 0 <= l < LEVELS ==> Counts(s).Of(l) >= Min(|s.queues[l]|, Quota(l))
  {
    hide Select, Refill;
    SelectionSize(|s.queues[0]|, |s.queues[1]|, |s.queues[2]|);
    RefillTakes(s);
  }

  lemma SelectionSize(n0: nat, n1: nat, n2: nat)
    ensures var p := Select(n0, n1, n2);
            && p.p0 + p.p1 + p.p2 <= 12
            && p.Of(0) >= Min(n0, Quota(0)) && p.Of(1) >= Min(n1, Quota(1)) && p.Of(2) >= Min(n2, Quota(2))
  {
    hide Select;
    SelectionLaws(n0, n1, n2);
  }

  lemma RefillMoves(s: State, l: nat, k: nat, id: nat) returns (p: Place)
    requires |s.queues| == LEVELS && s.run == [] && At(s, InQueue(l, k), id)
    ensures At(Refill(s), p, id)
    ensures Bound(Refill(s), p) <= 12 * (k / Quota(l)) + 11
  {
    hide Refill, Counts;
    var c := Counts(s);
    RefillPlaces(s, l, k);
    RefillSize(s);
    if k < c.Of(l) {
      p := InRun(k + (if l == 0 then 0 else c.p0) + (if l == 2 then c.p1 else 0));
    } else {
      p := InQueue(l, k - c.Of(l));
      QuotaDrops(k, c.Of(l), l);
    }
  }

  lemma QuotaDrops(k: nat, n: nat, l: nat)
    requires Quota(l) <= n <= k
    ensures 12 + 12 * ((k - n) / Quota(l)) <= 12 * (k / Quota(l))
  {
  }

  lemma RetireMoves(s: State, wholeSlice: bool, p: Place, id: nat) returns (p': Place)
    requires |s.queues| == LEVELS && s.run != [] && s.run[0].priority < LEVELS && Aged(s.run[0])
    requires At(s, p, id) && p != InRun(0)
    ensures At(Retire(s, wholeSlice), p', id) && Bound(Retire(s, wholeSlice), p') == Bound(s, p) - 1
    ensures p.InQueue? ==> p' == p
  {
    ReturnedStaysAged(s.run[0], wholeSlice);
    hide Returned;
    match p
    case InRun(i) => p' := InRun(i - 1);
    case InQueue(l, k) => p' := p;
  }

  /** Every call of the scheduler brings a waiting thread nearer. */
  lemma ScheduleMoves(s: State, wholeSlice: bool, p: Place, id: nat) returns (p': Place)
    requires |s.queues| == LEVELS && s.run != [] && s.run[0].priority < LEVELS && Aged(s.run[0])
    requires At(s, p, id) && p != InRun(0)
    ensures At(Schedule(s, wholeSlice), p', id) && Bound(Schedule(s, wholeSlice), p') < Bound(s, p)
  {
    var s1 := Retire(s, wholeSlice);
    var p1 := RetireMoves(s, wholeSlice, p, id);
    assert |s1.run| == |s.run| - 1;
    hide Retire, Refill;
    if s1.run == [] {
      assert p1.InQueue?;
      p' := RefillMoves(s1, p1.level, p1.pos, id);
      assert |Dispatch(Refill(s1)).run| == |Refill(s1).run|;
    } else {
      p' := p1;
      assert |Dispatch(s1).run| == |s1.run|;
    }
  }

  lemma StepMoves(s: State, e: Event, p: Place, id: nat) returns (p': Place)
    requires Invariant(s) && At(s, p, id) && p != InRun(0)
    ensures At(Next(s, e), p', id) && Bound(Next(s, e), p') < Bound(s, p)
  {
    assert s.run[0].priority < LEVELS;
    hide Schedule, Aged;
    match e
    case Create =>
      assert At(Admit(s), p, id) && Bound(Admit(s), p) == Bound(s, p);
      p' := ScheduleMoves(Admit(s), false, p, id);
    case Exit =>
      var s1 := s.(run := s.run[0 := s.run[0].(status := Exited)]);
      assert At(s1, p, id) && Bound(s1, p) == Bound(s, p);
      AgedWhateverStatus(s.run[0], Exited);
      p' := ScheduleMoves(s1, false, p, id);
    case Yield => p' := ScheduleMoves(s, false, p, id);
    case Timer => p' := ScheduleMoves(s, true, p, id);
  }

  lemma AgedWhateverStatus(t: Thread, status: Status)
    requires Aged(t)
    ensures Aged(t.(status := status))
  {
  }

  /** Bounded waiting.  Whatever the other threads do, a thread at position i of the running queue
      executes after at most i scheduler steps, and one at position k of queue l after at most
      r + 12 * (k / q) + 11, where r is the length of the running queue and q is 4, 2 or 1. */
  lemma {:induction false} BoundedWaiting(s: State, es: seq<Event>, p: Place, id: nat) returns (j: nat)
    requires Invariant(s) && At(s, p, id) && |es| >= Bound(s, p)
    ensures j <= Bound(s, p) == match p
                     case InRun(i) => i
                     case InQueue(l, k) => |s.run| + 12 * (k / (if l == 0 then 4 else if l == 1 then 2 else 1)) + 11
    ensures var r := Run(s, es[..j]); r.run != [] && r.run[0].id == id
    decreases |es|
  {
    hide Next, Invariant, Bound, At, Live;
    BoundAtStart(s, p, id);
    if p == InRun(0) {
      j := 0;
      assert es[..0] == [];
    } else {
      var p' := StepMoves(s, es[0], p, id);
      var s1 := Next(s, es[0]);
      StepKeepsInvariant(s, es[0]);
      SomebodyLeft(s1, p', id);
      j := BoundedWaiting(s1, es[1..], p', id);
      RunSplit(s, es, j);
      j := j + 1;
    }
  }

  lemma BoundAtStart(s: State, p: Place, id: nat)
    requires Invariant(s) && At(s, p, id)
    ensures |s.queues| == LEVELS && s.run != [] && s.run[0].priority < LEVELS
    ensures if p == InRun(0) then s.run != [] && s.run[0].id == id else Bound(s, p) > 0
    ensures Bound(s, p) == match p
                             case InRun(i) => i
                             case InQueue(l, k) => |s.run| + 12 * (k / (if l == 0 then 4 else if l == 1 then 2 else 1)) + 11
  {
  }

  lemma SomebodyLeft(s: State, p: Place, id: nat)
    requires |s.queues| == LEVELS && At(s, p, id)
    ensures Live(s) != multiset{}
  {
    match p
    case InRun(i) => assert Ids(s.run)[i] in Live(s);
    case InQueue(l, k) => assert Ids(s.queues[l])[k] in Live(s);
  }
}
