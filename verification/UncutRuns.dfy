/** The scheduler as written, without the cut of the running chain: where it runs as if the chain were
    cut, and a run in which a thread comes to be in two lists. */
module UncutRuns {
  import opened RefillSelection
  import opened Scheduling
  import SchedulingRuns
  import opened RunQueue

  /** A refill takes nothing, or all of the last level that it draws from. */
  predicate Drains(s: State)
    requires |s.queues| == LEVELS
  {
    var p := Counts(s);
    p == Pick(0, 0, 0) || p.Of(LastLevel(p)) == |s.queues[LastLevel(p)]|
  }

  /** `createRunningQueue` as written: the lists are those of the refill on values, and the chain ends
      at its tail if and only if the last level drawn from is drained. */
  method RefillUncut(q: Lists)
    requires q.Valid() && q.lists[RUN] == []
    modifies q, q.nodes
    ensures |q.lists| == 4 && q.nodes == old(q.nodes) && q.View() == Scheduling.Refill(old(q.View()))
    ensures q.Gives(q.lists) && NoDup(q.lists) && Within(q.lists, q.nodes)
    ensures q.Valid() <==> Drains(old(q.View()))
    ensures var p := Counts(old(q.View()));
            p != Pick(0, 0, 0) ==> |q.head| == RUN && q.runTail != null && q.runTail.next == q.head[LastLevel(p)]
  {
    hide NoDup, Threads, Select, Filled, Scheduling.Refill, Lists.ViewOf, Lists.Gives, EndsInNull;
    ghost var l, s := q.lists, q.View();
    assert q.ViewOf(l) == s;
    SizesOfView(q, l, s);
    var p, _ := q.CreateRunningQueue(l);
    assert q.ViewOf(l) == s;
    q.FilledView(l, p);
    FilledWithin(l, p, q.nodes);
    q.lists := Filled(l, p);
    assert q.ViewOf(q.lists) == q.View();
    DrainsIff(l, p, s);
  }

  lemma SizesOfView(q: Lists, l: seq<seq<TcbNode>>, s: State)
    requires |l| == 4 && s == q.ViewOf(l)
    ensures |s.queues| == LEVELS && forall k :: 0 <= k < LEVELS ==> |s.queues[k]| == |l[k]|
  {
    hide Threads;
  }

  lemma DrainsIff(l: seq<seq<TcbNode>>, p: Pick, s: State)
    requires Fits(l, p) && |s.queues| == LEVELS && forall k :: 0 <= k < LEVELS ==> |s.queues[k]| == |l[k]|
    requires p == Select(|l[0]|, |l[1]|, |l[2]|)
    ensures Counts(s) == p
    ensures Drains(s) <==> p == Pick(0, 0, 0) || Filled(l, p)[LastLevel(p)] == []
  {
    hide Select;
    assert Counts(s) == p;
  }

  // ---------- runs whose refills drain ----------

  /** The refill that the scheduler makes, if any, drains. */
  predicate RefillDrains(s: State, wholeSlice: bool)
    requires |s.queues| == LEVELS && s.run != [] && s.run[0].priority < LEVELS
  {
    var s1 := Scheduling.Retire(s, wholeSlice);
    s1.run == [] ==> Drains(s1)
  }

  predicate StepDrains(s: State, e: Event)
    requires |s.queues| == LEVELS && s.run != [] && s.run[0].priority < LEVELS
  {
    match e
    case Create => RefillDrains(Scheduling.Admit(s), false)
    case Yield => RefillDrains(s, false)
    case Timer => RefillDrains(s, true)
    case Exit => RefillDrains(s.(run := s.run[0 := s.run[0].(status := Exited)]), false)
  }

  method ScheduleUncut(q: Lists, wholeSlice: bool)
    requires q.Valid() && q.View().run != [] && q.View().run[0].priority < LEVELS
    requires RefillDrains(q.View(), wholeSlice)
    modifies q, q.nodes
    ensures q.Valid() && q.nodes == old(q.nodes)
    ensures q.View() == Scheduling.Schedule(old(q.View()), wholeSlice)
  {
    hide NoDup, Lists.Gives, EndsInNull, Within, Threads, Scheduling.Retire, Scheduling.Refill, Scheduling.Dispatch, Drains, Counts;
    q.Retire(wholeSlice);
    if q.runHead == null {
      RefillUncut(q);
    }
    q.Dispatch();
  }

  /** One step as written, when its refill drains, is the step with the cut. */
  method StepUncut(q: Lists, e: Event)
    requires q.Valid() && q.View().run != [] && q.View().run[0].priority < LEVELS && StepDrains(q.View(), e)
    modifies q, q.nodes
    ensures q.Valid() && fresh(q.nodes - old(q.nodes)) && old(q.nodes) <= q.nodes
    ensures q.View() == Next(old(q.View()), e)
  {
    hide NoDup, Lists.Gives, EndsInNull, Within, Threads, Scheduling.Schedule, RefillDrains;
    match e
    case Create =>
      var _ := q.Admit();
      ScheduleUncut(q, false);
    case Yield => ScheduleUncut(q, false);
    case Timer => ScheduleUncut(q, true);
    case Exit =>
      q.MarkExited();
      ScheduleUncut(q, false);
  }

  ghost predicate DrainedRun(s: State, es: seq<Event>)
    requires s.run == [] || Invariant(s)
    decreases |es|
  {
    es == [] || s.run == [] || (
      && StepDrains(s, es[0])
      && (SchedulingRuns.StepKeepsInvariant(s, es[0]); DrainedRun(Next(s, es[0]), es[1..])))
  }

  /** A run as written, in which every refill drains the last level it draws from, is the run with the
      cut. */
  method RunUncut(q: Lists, es: seq<Event>)
    requires q.Valid() && Invariant(q.View()) && DrainedRun(q.View(), es)
    modifies q, q.nodes
    ensures q.Valid() && q.View() == SchedulingRuns.Run(old(q.View()), es)
  {
    hide NoDup, Lists.Gives, EndsInNull, Within, Threads, Next, StepDrains, Invariant;
    var i := 0;
    ghost var s := q.View();
    RunsHead(s);
    while i < |es| && q.runHead != null
      invariant 0 <= i <= |es| && q.Valid() && fresh(q.nodes - old(q.nodes))
      invariant s == q.View() && (s.run == [] || Invariant(s)) && DrainedRun(s, es[i..])
      invariant SchedulingRuns.Run(s, es[i..]) == SchedulingRuns.Run(old(q.View()), es)
    {
      RunsIffHead(q);
      RunsHead(s);
      assert es[i..][1..] == es[i + 1..];
      SchedulingRuns.StepKeepsInvariant(s, es[i]);
      StepUncut(q, es[i]);
      s := q.View();
      i := i + 1;
    }
    RunsIffHead(q);
  }

  lemma RunsIffHead(q: Lists)
    requires q.Valid()
    ensures q.runHead == null <==> q.View().run == []
  {
    hide Threads, NoDup, Within;
  }

  lemma RunsHead(s: State)
    requires Invariant(s)
    ensures |s.queues| == LEVELS && s.run != [] && s.run[0].priority < LEVELS
  {
  }

  // ---------- a thread in two lists ----------

  /** The chain runs on from the segment rs into queue 0, which holds ws; no node is in both. */
  ghost predicate RunsOn(q: Lists, rs: seq<TcbNode>, ws: seq<TcbNode>)
    reads q`head, q`tail, q`runHead, q`runTail, rs`next, ws`next
  {
    && |q.head| == |q.tail| == RUN && rs != [] && ws != []
    && IsQueue(q.head[0], q.tail[0], ws) && IsSegment(q.runHead, q.runTail, rs) && rs[|rs| - 1].next == ws[0]
    && (forall i, j :: 0 <= i < j < |rs| ==> rs[i] != rs[j]) && (forall i, j :: 0 <= i < j < |ws| ==> ws[i] != ws[j])
    && (forall i :: 0 <= i < |rs| ==> rs[i] !in ws)
  }

  ghost predicate AtLevel0(rs: seq<TcbNode>)
    reads rs`priority, rs`timeRan, rs`status
  {
    forall i :: 0 <= i < |rs| ==> rs[i].priority == 0 && rs[i].timeRan == 0 && rs[i].status != Exited
  }

  lemma HeadLeads(q: Lists, rs: seq<TcbNode>, ws: seq<TcbNode>) returns (n: TcbNode)
    requires RunsOn(q, rs, ws)
    ensures n == if |rs| > 1 then rs[1] else ws[0]
    ensures q.runHead == rs[0] && rs[0].next == n && n != rs[0] && rs[0] !in ws && (n in rs || n in ws)
    ensures |q.head| == |q.tail| == RUN && IsQueue(q.head[0], q.tail[0], ws)
  {
    n := if |rs| > 1 then rs[1] else ws[0];
  }

  /** The parts of the segment and the chain behind its first node. */
  ghost predicate Behind(q: Lists, rs: seq<TcbNode>, w: TcbNode)
    reads q`runTail, rs`next
  {
    rs != [] && Linked(rs) && q.runTail == rs[|rs| - 1] && rs[|rs| - 1].next == w
  }

  lemma SplitHead(q: Lists, rs: seq<TcbNode>, ws: seq<TcbNode>)
    requires RunsOn(q, rs, ws) && AtLevel0(rs)
    ensures |rs| > 1 ==> Behind(q, rs[1..], ws[0]) && AtLevel0(rs[1..])
    ensures Apart(rs, ws) && rs[0].priority == 0 && rs[0].timeRan == 0 && rs[0].status != Exited
  {
  }

  ghost predicate Apart(rs: seq<TcbNode>, ws: seq<TcbNode>) {
    && rs != [] && ws != []
    && (forall i, j :: 0 <= i < j < |rs| ==> rs[i] != rs[j]) && (forall i, j :: 0 <= i < j < |ws| ==> ws[i] != ws[j])
    && (forall i :: 0 <= i < |rs| ==> rs[i] !in ws)
  }

  lemma JoinHead(q: Lists, rs: seq<TcbNode>, ws: seq<TcbNode>)
    requires |rs| > 1 && Apart(rs, ws) && Behind(q, rs[1..], ws[0]) && q.runHead == rs[1]
    requires |q.head| == |q.tail| == RUN && IsQueue(q.head[0], q.tail[0], ws + [rs[0]])
    ensures RunsOn(q, rs[1..], ws + [rs[0]])
  {
    hide IsQueue, Linked;
    var r, w := rs[1..], ws + [rs[0]];
    assert r[0] == rs[1] && w[0] == ws[0];
    forall i, j | 0 <= i < j < |w| ensures w[i] != w[j] {
      if j == |ws| { assert rs[0] !in ws; }
    }
  }

  /** A yield as written, by the first thread of the segment: the next one executes, and that is the
      first of queue 0 if the segment ends here. */
  method YieldOnChain(q: Lists, ghost rs: seq<TcbNode>, ghost ws: seq<TcbNode>)
    requires RunsOn(q, rs, ws) && AtLevel0(rs)
    modifies q`head, q`tail, q`runHead, rs, ws
    ensures |rs| > 1 ==> RunsOn(q, rs[1..], ws + [rs[0]]) && AtLevel0(rs[1..])
    ensures |rs| == 1 ==> |q.head| == |q.tail| == RUN && IsQueue(q.head[0], q.tail[0], ws + [rs[0]]) && q.runHead == ws[0]
    ensures q.runHead != null && q.runHead.status == Running
  {
    hide IsQueue, RunsOn, Behind;
    ghost var n := HeadLeads(q, rs, ws);
    SplitHead(q, rs, ws);
    hide AtLevel0;
    var ptr := q.runHead;
    q.Account(ptr, false);
    q.runHead := ptr.next;
    var h := Lists.LinkLast(q.head[0], q.tail[0], ptr, ws);
    q.head := q.head[0 := h];
    q.tail := q.tail[0 := ptr];
    q.runHead.status := Running;
    if |rs| > 1 {
      JoinHead(q, rs, ws);
    }
  }

  /** None of the threads ran yet. */
  predicate Idle(q: seq<Thread>) {
    forall i :: 0 <= i < |q| ==> q[i].priority == 0 && q[i].timeRan == 0 && q[i].status == Status.Ready
  }

  /** All threads wait in queue 0. */
  predicate Fresh(s: State, n: nat)
    requires |s.queues| == LEVELS
  {
    s.run == [] && |s.queues[0]| == n && s.queues[1] == s.queues[2] == [] && Idle(s.queues[0])
  }

  /** n threads are created before the scheduler is first called. */
  method CreateThreads(n: nat) returns (q: Lists)
    ensures fresh(q) && q.Valid() && fresh(q.nodes) && Fresh(q.View(), n)
  {
    hide NoDup, Lists.Gives, EndsInNull, Within, Threads;
    q := new Lists();
    var i := 0;
    while i < n
      invariant i <= n && fresh(q) && q.Valid() && fresh(q.nodes) && Fresh(q.View(), i)
    {
      var _ := q.Admit();
      i := i + 1;
    }
  }

  /** The first call of the scheduler, as written, with twelve threads waiting: the main thread and
      eleven others are taken, and the chain runs on into the thirteenth. */
  method FirstUncut(q: Lists) returns (ghost rs: seq<TcbNode>, ghost ws: seq<TcbNode>)
    requires q.Valid() && Fresh(q.View(), 12)
    modifies q, q.nodes
    ensures |rs| == 12 && |ws| == 1 && RunsOn(q, rs, ws) && AtLevel0(rs)
    ensures forall x :: x in rs || x in ws ==> x in q.nodes
    ensures fresh(q.nodes - old(q.nodes))
  {
    hide NoDup, Lists.Gives, EndsInNull, Within, Threads, Scheduling.Refill, Counts, RunsOn, AtLevel0, Drains, Idle;
    AddMain(q);
    ghost var s := q.View();
    NothingRuns(q);
    RefillUncut(q);
    rs, ws := q.lists[RUN], q.lists[0];
    TwelveAreTaken(s, Counts(s), q.View());
    ChainOfTwelve(q, q.View());
    InNodes(q);
    ExecutesOne(q, rs, ws);
  }

  /** The main thread joins those that were created. */
  method AddMain(q: Lists)
    requires q.Valid() && Fresh(q.View(), 12)
    modifies q, q.nodes
    ensures q.Valid() && Fresh(q.View(), 13) && fresh(q.nodes - old(q.nodes))
  {
    hide NoDup, Lists.Gives, EndsInNull, Within, Threads;
    var node := q.NewNode(1);
    q.Prepend(node);
  }

  /** The head of the segment gets the processor. */
  method ExecutesOne(q: Lists, ghost rs: seq<TcbNode>, ghost ws: seq<TcbNode>)
    requires q.runHead != null && q.runHead in rs && RunsOn(q, rs, ws) && AtLevel0(rs)
    modifies rs`status
    ensures RunsOn(q, rs, ws) && AtLevel0(rs)
  {
    hide RunsOn;
    q.runHead.status := Running;
  }

  lemma NothingRuns(q: Lists)
    requires q.Valid() && q.View().run == []
    ensures q.lists[RUN] == []
  {
    hide Threads, NoDup, Within;
  }

  lemma TwelveAreTaken(s: State, p: Pick, r: State)
    requires |s.queues| == LEVELS && Fresh(s, 13) && p == Counts(s) && r == Refill(s)
    ensures p == Pick(12, 0, 0) && |r.run| == 12 && |r.queues| == LEVELS && |r.queues[0]| == 1 && Idle(r.run)
  {
    hide Select;
    TwelveFit(|s.queues[0]|, |s.queues[1]|, |s.queues[2]|);
    assert r.run == s.queues[0][..12];
  }

  lemma ChainOfTwelve(q: Lists, r: State)
    requires |q.lists| == 4 && q.Gives(q.lists) && NoDup(q.lists) && q.View() == r
    requires |r.run| == 12 && |r.queues[0]| == 1 && Idle(r.run)
    requires |q.head| == RUN && q.runTail != null && q.runTail.next == q.head[0]
    ensures |q.lists[RUN]| == 12 && |q.lists[0]| == 1
    ensures RunsOn(q, q.lists[RUN], q.lists[0]) && AtLevel0(q.lists[RUN]) && q.runHead != null && q.runHead in q.lists[RUN]
  {
    hide NoDup;
    RunQueue.Apart(q.lists, RUN);
    RunQueue.Apart(q.lists, 0);
    ghost var rs := q.lists[RUN];
    assert Threads(rs) == q.View().run;
    assert Threads(q.lists[0]) == q.View().queues[0];
    forall i | 0 <= i < |rs| ensures rs[i].priority == 0 && rs[i].timeRan == 0 && rs[i].status != Exited {
      assert Threads(rs)[i] == rs[i].Value();
    }
  }

  lemma InNodes(q: Lists)
    requires |q.lists| == 4 && Within(q.lists, q.nodes)
    ensures forall x :: x in q.lists[RUN] || x in q.lists[0] ==> x in q.nodes
  {
  }

  /** The whole run as written: twelve threads are created, the scheduler is called, and each thread of
      the segment yields once.  Then the thirteenth executes, and it still waits at the head of queue 0. */
  method ThirteenthInTwoLists() returns (q: Lists, ghost ws: seq<TcbNode>)
    ensures |q.head| == |q.tail| == RUN && IsQueue(q.head[0], q.tail[0], ws) && |ws| == 13
    ensures q.runHead == q.head[0] == ws[0] && ws[0].status == Running
  {
    hide RunsOn, AtLevel0, IsQueue, Fresh;
    q := CreateThreads(12);
    ghost var rs;
    rs, ws := FirstUncut(q);
    var n := 1;
    while n < 12
      invariant 1 <= n <= 12 && |rs| == 13 - n && |ws| == n && fresh(q)
      invariant RunsOn(q, rs, ws) && AtLevel0(rs)
      invariant forall i :: 0 <= i < |rs| ==> fresh(rs[i])
      invariant forall i :: 0 <= i < |ws| ==> fresh(ws[i])
    {
      YieldOnChain(q, rs, ws);
      rs, ws := rs[1..], ws + [rs[0]];
      n := n + 1;
    }
    YieldOnChain(q, rs, ws);
    ws := ws + [rs[0]];
    HeadOfQueue(q, ws);
  }

  lemma HeadOfQueue(q: Lists, ws: seq<TcbNode>)
    requires |q.head| == |q.tail| == RUN && IsQueue(q.head[0], q.tail[0], ws) && ws != []
    ensures q.head[0] == ws[0]
  {
  }
}
