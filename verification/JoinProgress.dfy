/** How long a join takes once its target is gone, and a run in which one never returns. */
module JoinProgress {
  import opened RefillSelection
  import opened Scheduling
  import opened SchedulingRuns
  import opened JoinExit

  // ---------- bounded joins ----------

  /** Does this step call the scheduler? */
  ghost predicate Schedules(s: System, e: Step)
    requires Scheduled(s) && Enabled(s, e)
  {
    Returning(s, e) == []
  }

  /** How often a run calls the scheduler. */
  ghost function Calls(s: System, es: seq<Step>): nat
    requires Proper(s) && Legal(s, es)
    decreases |es|
  {
    if es == [] then 0 else
      StepKeepsConsistent(s, es[0]);
      (if Schedules(s, es[0]) then 1 else 0) + Calls(JoinExit.Next(s, es[0]), es[1..])
  }

  /** The scheduler's part of a step that calls it. */
  function EventOf(e: Step): Event {
    match e
    case Other(x) => x
    case Leave(_) => Exit
    case _ => Yield
  }

  lemma SchedOf(s: System, e: Step)
    requires Scheduled(s) && Enabled(s, e)
    ensures |s.sched.queues| == LEVELS && s.sched.run != [] && s.sched.run[0].priority < LEVELS
    ensures JoinExit.Next(s, e).sched == if Schedules(s, e) then Scheduling.Next(s.sched, EventOf(e)) else s.sched
  {
    HeadRuns(s.sched);
    hide Invariant, Live, Scheduling.Next, Unlinked, Dropped, Woken;
  }

  /** A block marked done stays in the list until its own thread runs. */
  lemma DoneStays(s: System, e: Step, w: Waiter)
    requires Consistent(s) && Enabled(s, e) && w in s.joins && w.done && w.joiner != Me(s)
    ensures w in JoinExit.Next(s, e).joins
  {
    hide Invariant, Live, Scheduling.Next, Woken, Unlinked, Dropped, Left, OneBlockEach, WaiterOk, RetvalOk;
    HeadRuns(s.sched);
    UnlinkedEntries(s.joins, Me(s));
    match e
    case Other(x) =>
    case Leave(v) => WokenKeepsDone(s.joins, Me(s), w);
    case Join(t, want) =>
      QuickJoin(s, Waiter(Me(s), t, want, false));
    case Poll =>
  }

  lemma WokenKeepsDone(ws: seq<Waiter>, t: nat, w: Waiter)
    requires w in ws && w.done
    ensures w in Woken(ws, t)
  {
    var k :| 0 <= k < |ws| && ws[k] == w;
    WokenEntries(ws, t, k);
    assert Woken(ws, t)[k] == w;
  }

  /** A thread that executes and has a block marked done returns from its join. */
  lemma DoneReturns(s: System, e: Step, w: Waiter)
    requires Consistent(s) && Enabled(s, e) && w in s.joins && w.done && w.joiner == Me(s)
    ensures e == Poll && Returning(s, e) == [w]
  {
    hide Invariant, Live, Scheduling.Next;
    var k :| 0 <= k < |s.joins| && s.joins[k] == w;
    OwnBlock(s.joins, w, Me(s));
  }

  /** A waiting thread stays alive, so that the process goes on. */
  lemma WaiterLives(s: System, e: Step, p: SchedulingRuns.Place, id: nat) returns (q: SchedulingRuns.Place)
    requires Consistent(s) && Enabled(s, e) && At(s.sched, p, id) && p != InRun(0)
    ensures var n := JoinExit.Next(s, e);
            && n.sched.run != [] && |n.sched.queues| == LEVELS && At(n.sched, q, id)
            && Bound(n.sched, q) + (if Schedules(s, e) then 1 else 0) <= Bound(s.sched, p)
  {
    SchedOf(s, e);
    hide JoinExit.Next, Scheduling.Next, Bound, Invariant, Live;
    StepKeepsConsistent(s, e);
    if Schedules(s, e) {
      q := StepMoves(s.sched, EventOf(e), p, id);
      SomebodyLeft(Scheduling.Next(s.sched, EventOf(e)), q, id);
    } else {
      q := p;
    }
  }

  lemma FirstStep(s: System, es: seq<Step>, j: nat)
    requires Consistent(s) && Legal(s, es) && j < |es|
    ensures Enabled(s, es[0]) && Scheduled(s)
    ensures var n := JoinExit.Next(s, es[0]);
            && Proper(n) && Legal(n, es[1..])
            && Calls(s, es) == (if Schedules(s, es[0]) then 1 else 0) + Calls(n, es[1..])
            && (Legal(n, es[1..][..j]) ==>
                  && Legal(s, es[..j + 1])
                  && JoinExit.Run(s, es[..j + 1]) == JoinExit.Run(n, es[1..][..j])
                  && Calls(s, es[..j + 1]) == (if Schedules(s, es[0]) then 1 else 0) + Calls(n, es[1..][..j]))
  {
    hide Consistent, JoinExit.Next, Schedules;
    ConsistentIsScheduled(s);
    StepKeepsConsistent(s, es[0]);
    assert es[..j + 1][1..] == es[1..][..j];
  }

  /** Bounded joins.  Once the block of a waiting thread is marked done, the thread returns from its
      join, in any run, before the scheduler was called more often than the bound on waiting says. */
  lemma {:induction false} DoneJoinReturns(s: System, es: seq<Step>, w: Waiter, p: SchedulingRuns.Place) returns (j: nat)
    requires Consistent(s) && Legal(s, es) && w in s.joins && w.done && At(s.sched, p, w.joiner)
    requires Calls(s, es) > Bound(s.sched, p)
    ensures j < |es| && Legal(s, es[..j]) && Calls(s, es[..j]) <= Bound(s.sched, p)
    ensures var r := JoinExit.Run(s, es[..j]);
            Consistent(r) && Enabled(r, es[j]) && Returning(r, es[j]) == [w]
    decreases |es|
  {
    hide Consistent, JoinExit.Next, Schedules, Bound, Returning, Calls, Legal, JoinExit.Run, Enabled;
    CallsNeedSteps(s, es);
    FirstStep(s, es, 0);
    if Me(s) == w.joiner {
      DoneReturns(s, es[0], w);
      j := 0;
      NoSteps(s, es);
    } else {
      var n := JoinExit.Next(s, es[0]);
      var q := WaiterLives(s, es[0], p, w.joiner);
      DoneStays(s, es[0], w);
      j := DoneJoinReturns(n, es[1..], w, q);
      FirstStep(s, es, j);
      j := j + 1;
    }
  }

  lemma CallsNeedSteps(s: System, es: seq<Step>)
    requires Consistent(s) && Legal(s, es) && Calls(s, es) > 0
    ensures es != [] && |s.sched.queues| == LEVELS && s.sched.run != []
  {
  }

  lemma NoSteps(s: System, es: seq<Step>)
    requires Consistent(s)
    ensures Legal(s, es[..0]) && Calls(s, es[..0]) == 0 && JoinExit.Run(s, es[..0]) == s
  {
  }

  /** So, as long as no wakeup was lost, a join whose target is gone returns within that bound. */
  lemma JoinReturnsSoon(s: System, es: seq<Step>, w: Waiter, p: SchedulingRuns.Place) returns (j: nat)
    requires Consistent(s) && NoLostWakeup(s) && w in s.joins && w.target !in Live(s.sched)
    requires At(s.sched, p, w.joiner) && Legal(s, es) && Calls(s, es) > Bound(s.sched, p)
    ensures j < |es| && Legal(s, es[..j]) && Calls(s, es[..j]) <= Bound(s.sched, p)
    ensures var r := JoinExit.Run(s, es[..j]);
            Consistent(r) && Enabled(r, es[j]) && Returning(r, es[j]) == [w]
  {
    j := DoneJoinReturns(s, es, w, p);
  }

  // ---------- a lost wakeup, from the first call of the scheduler on ----------

  function Main(run: seq<Thread>, waiting: seq<Thread>, nextId: nat): State {
    State([waiting, [], []], run, nextId)
  }

  /** A few threads of level 0 are all taken by a refill. */
  lemma AllFit(n0: nat, n1: nat, n2: nat)
    requires n0 <= 12 && n1 == 0 && n2 == 0
    ensures Select(n0, n1, n2) == Pick(n0, 0, 0)
  {
    hide Select;
    SelectionLaws(n0, n1, n2);
  }

  lemma RefillAll(s: State)
    requires |s.queues| == LEVELS && s.run == [] && |s.queues[0]| <= 12 && s.queues[1] == s.queues[2] == []
    ensures Refill(s) == s.(queues := [[], [], []], run := s.queues[0])
  {
    hide Select;
    AllFit(|s.queues[0]|, |s.queues[1]|, |s.queues[2]|);
    assert Refill(s).run == s.queues[0];
    assert Refill(s).queues == [[], [], []];
  }

  /** One yield among threads of level 0: the head goes to the end of queue 0, and the next executes,
      after a refill if there is none. */
  lemma YieldAmongLevel0(s: State, h: Thread, rest: seq<Thread>, waiting: seq<Thread>)
    requires s == Main([h] + rest, waiting, s.nextId) && h.priority == 0 && h.timeRan < 350 && h.status == Running && |waiting| < 12
    ensures Scheduling.Next(s, Yield) ==
              var t := Thread(h.id, 0, h.timeRan + 25, Status.Ready);
              var w := waiting + [t];
              if rest == [] then Main([w[0].(status := Running)] + w[1..], [], s.nextId)
              else Main([rest[0].(status := Running)] + rest[1..], w, s.nextId)
  {
    hide Refill;
    var t := Thread(h.id, 0, h.timeRan + 25, Status.Ready);
    assert Returned(h, false) == t;
    var s1 := Retire(s, false);
    assert s1 == Main(rest, waiting + [t], s.nextId);
    if rest == [] {
      RefillAll(s1);
    }
  }

  lemma FirstAmongLevel0(s: State, waiting: seq<Thread>)
    requires s == Main([], waiting, s.nextId) && |waiting| < 12
    ensures FirstSchedule(s) == Main([Thread(1, 0, 0, Running)] + waiting, [], s.nextId)
  {
    hide Refill;
    var s1 := s.(queues := s.queues[0 := [Thread(1, 0, 0, Status.Ready)] + s.queues[0]]);
    RefillAll(s1);
  }

  /** One created thread waits for the first call of the scheduler. */
  lemma OneCreated(s: State, t: Thread)
    requires s == Main([], [t], s.nextId) && t == Thread(t.id, 0, 0, Status.Ready) && 1 < t.id < s.nextId
    ensures Placed(s) && Live(s) == multiset{t.id}
  {
    assert Ids([t]) == [t.id] && Ids([]) == [];
    assert Aged(t);
  }

  lemma CreateAmongLevel0(s: State)
    requires |s.queues| == LEVELS && s.run != [] && s.run[0].priority < LEVELS
    ensures Scheduling.Next(s, Create) == Scheduling.Next(Admit(s), Yield)
    ensures Admit(s) == s.(queues := s.queues[0 := s.queues[0] + [Thread(s.nextId, 0, 0, Status.Ready)]], nextId := s.nextId + 1)
  {
  }

  datatype Scene = Scene(created: State, first: State, three: State, one: State, both: State)

  /** The scheduler's states in the run below. */
  ghost predicate Scenes(c: Scene) {
    && c.created == Main([], [Thread(2, 0, 0, Status.Ready)], 3)
    && c.first == Main([Thread(1, 0, 0, Running), Thread(2, 0, 0, Status.Ready)], [], 3)
    && c.three == Main([Thread(2, 0, 0, Running)], [Thread(3, 0, 0, Status.Ready), Thread(1, 0, 25, Status.Ready)], 4)
    && c.one == Main([Thread(3, 0, 0, Running), Thread(1, 0, 25, Status.Ready), Thread(2, 0, 25, Status.Ready)], [], 4)
    && c.both == Main([Thread(1, 0, 25, Running), Thread(2, 0, 25, Status.Ready)], [Thread(3, 0, 25, Status.Ready)], 4)
  }

  lemma SceneFirst(c: Scene)
    requires Scenes(c)
    ensures c.first == FirstSchedule(c.created) && Invariant(c.first)
  {
    hide Live, Placed, Invariant, Schedule, FirstSchedule;
    OneCreated(c.created, Thread(2, 0, 0, Status.Ready));
    FirstAmongLevel0(c.created, [Thread(2, 0, 0, Status.Ready)]);
    FirstScheduleStarts(c.created);
  }

  lemma SceneThree(c: Scene)
    requires Scenes(c)
    ensures c.first.run != [] && |c.first.queues| == LEVELS && c.first.run[0].priority < LEVELS
    ensures Scheduling.Next(c.first, Create) == c.three
  {
    hide Scheduling.Next, Admit;
    CreateAmongLevel0(c.first);
    var a := Admit(c.first);
    var three := Thread(3, 0, 0, Status.Ready);
    assert c.first.queues[0] + [three] == [three];
    assert a.queues == [[three], [], []];
    assert a == Main([Thread(1, 0, 0, Running)] + [Thread(2, 0, 0, Status.Ready)], [three], 4);
    var rest := [Thread(2, 0, 0, Status.Ready)];
    YieldAmongLevel0(a, Thread(1, 0, 0, Running), rest, [three]);
    assert [rest[0].(status := Running)] + rest[1..] == c.three.run;
    assert [three] + [Thread(1, 0, 25, Status.Ready)] == c.three.queues[0];
  }

  lemma SceneOne(c: Scene)
    requires Scenes(c)
    ensures c.three.run != [] && |c.three.queues| == LEVELS && c.three.run[0].priority < LEVELS
    ensures Scheduling.Next(c.three, Yield) == c.one
  {
    hide Scheduling.Next;
    YieldAmongLevel0(c.three, Thread(2, 0, 0, Running), [], [Thread(3, 0, 0, Status.Ready), Thread(1, 0, 25, Status.Ready)]);
  }

  lemma SceneBoth(c: Scene)
    requires Scenes(c)
    ensures c.one.run != [] && |c.one.queues| == LEVELS && c.one.run[0].priority < LEVELS
    ensures Scheduling.Next(c.one, Yield) == c.both
  {
    hide Scheduling.Next;
    var rest := [Thread(1, 0, 25, Status.Ready), Thread(2, 0, 25, Status.Ready)];
    YieldAmongLevel0(c.one, Thread(3, 0, 0, Running), rest, []);
    assert [] + [Thread(3, 0, 25, Status.Ready)] == [Thread(3, 0, 25, Status.Ready)];
    assert [rest[0].(status := Running)] + rest[1..] == c.both.run;
  }

  lemma OneLives(c: Scene)
    requires Scenes(c)
    ensures |c.three.queues| == |c.one.queues| == LEVELS && 1 in Live(c.three) && 1 in Live(c.one)
  {
    assert Ids(c.three.queues[0])[1] == 1 && Ids(c.one.run)[1] == 1;
  }

  // the run, step by step

  lemma AfterCreate(c: Scene, s: System)
    requires Scenes(c) && s == System(c.first, [], [])
    ensures Consistent(s) && Enabled(s, Other(Create))
    ensures JoinExit.Next(s, Other(Create)) == System(c.three, [], []) && Consistent(System(c.three, [], []))
  {
    hide Invariant, Live, Scheduling.Next, FirstSchedule;
    SceneFirst(c);
    SceneThree(c);
    StepKeepsConsistent(s, Other(Create));
  }

  lemma AfterJoin(s: System, n: State)
    requires Consistent(s) && s.sched.run != [] && JoinExit.Place(s.joins, Me(s)) == |s.joins|
    requires 1 in Live(s.sched) && s.sched.run[0].priority < LEVELS && Scheduling.Next(s.sched, Yield) == n && n.run != []
    ensures Enabled(s, Join(1, false))
    ensures var r := System(n, [Waiter(Me(s), 1, false, false)] + s.joins, s.retvals);
            JoinExit.Next(s, Join(1, false)) == r && Consistent(r)
  {
    hide Invariant, Live, Scheduling.Next;
    StepKeepsConsistent(s, Join(1, false));
  }

  lemma AfterLeave(s: System)
    requires Consistent(s) && s.sched.run != [] && Me(s) == 1
    requires s.joins == [Waiter(3, 1, false, false), Waiter(2, 1, false, false)]
    ensures Enabled(s, Leave(0)) && Proper(JoinExit.Next(s, Leave(0)))
    ensures var r := JoinExit.Next(s, Leave(0)); |r.sched.queues| == LEVELS && Lost(r, Waiter(2, 1, false, false))
  {
    hide Invariant, Live, Scheduling.Next;
    ExitLives(s.sched);
    StepKeepsConsistent(s, Leave(0));
    assert Woken(s.joins, 1)[1] == s.joins[1];
  }

  /** From the first call of the scheduler: thread 1 creates thread 3, threads 2 and 3 join thread 1,
      and thread 1 exits.  It wakes thread 3; thread 2 waits for ever. */
  lemma TwoJoinersLoseAWakeup(c: Scene)
    requires Scenes(c)
    ensures c.first == FirstSchedule(c.created)
    ensures var s, es := System(c.first, [], []), [Other(Create), Join(1, false), Join(1, false), Leave(0)];
            && Consistent(s) && NoLostWakeup(s) && Legal(s, es)
            && var r := JoinExit.Run(s, es);
               |r.sched.queues| == LEVELS && Lost(r, Waiter(2, 1, false, false))
  {
    hide Invariant, Live, Scheduling.Next, FirstSchedule, Consistent, JoinExit.Next, Enabled;
    SceneFirst(c);
    SceneOne(c);
    SceneBoth(c);
    OneLives(c);
    var s0, s1 := System(c.first, [], []), System(c.three, [], []);
    AfterCreate(c, s0);
    AfterJoin(s1, c.one);
    var s2 := System(c.one, [Waiter(2, 1, false, false)], []);
    ConsistentIsScheduled(s1);
    assert [Waiter(2, 1, false, false)] + s1.joins == [Waiter(2, 1, false, false)];
    assert JoinExit.Next(s1, Join(1, false)) == s2;
    ConsistentIsScheduled(s2);
    AfterJoin(s2, c.both);
    var s3 := System(c.both, [Waiter(3, 1, false, false), Waiter(2, 1, false, false)], []);
    assert JoinExit.Next(s2, Join(1, false)) == s3;
    AfterLeave(s3);
    RunOfFour(s0, s1, s2, s3, Other(Create), Join(1, false), Join(1, false), Leave(0));
  }

  lemma RunOfFour(s0: System, s1: System, s2: System, s3: System, a: Step, b: Step, c: Step, d: Step)
    requires Consistent(s0) && Consistent(s1) && Consistent(s2) && Consistent(s3)
    requires Enabled(s0, a) && Enabled(s1, b) && Enabled(s2, c) && Enabled(s3, d)
    requires JoinExit.Next(s0, a) == s1 && JoinExit.Next(s1, b) == s2 && JoinExit.Next(s2, c) == s3
    ensures Legal(s0, [a, b, c, d]) && Scheduled(s3) && JoinExit.Run(s0, [a, b, c, d]) == JoinExit.Next(s3, d)
  {
    hide Consistent, JoinExit.Next, Enabled;
    RunOfOne(s3, d);
    RunMore(s2, s3, c, [d]);
    RunMore(s1, s2, b, [c, d]);
    RunMore(s0, s1, a, [b, c, d]);
    assert [c] + [d] == [c, d] && [b] + [c, d] == [b, c, d] && [a] + [b, c, d] == [a, b, c, d];
  }

  lemma RunOfOne(s: System, e: Step)
    requires Consistent(s) && Enabled(s, e)
    ensures Legal(s, [e]) && Scheduled(s) && JoinExit.Run(s, [e]) == JoinExit.Next(s, e)
  {
    hide Consistent, JoinExit.Next, Enabled;
    ConsistentIsScheduled(s);
    StepKeepsConsistent(s, e);
    assert [e][1..] == [];
    assert Legal(JoinExit.Next(s, e), []);
  }

  lemma RunMore(s: System, n: System, e: Step, es: seq<Step>)
    requires Consistent(s) && Enabled(s, e) && JoinExit.Next(s, e) == n && Proper(n) && Legal(n, es)
    ensures Legal(s, [e] + es) && JoinExit.Run(s, [e] + es) == JoinExit.Run(n, es)
  {
    hide Consistent, JoinExit.Next, Enabled;
    ConsistentIsScheduled(s);
    StepKeepsConsistent(s, e);
    assert ([e] + es)[1..] == es;
  }
}
