/** The scheduler of Memory_Manager/my_pthread.c as a state machine on values, with the running
    queue ending at its tail, and what holds over whole runs of it. */
module Scheduling {
  import opened RefillSelection

  datatype Status = Running | Ready | Exited

  datatype Thread = Thread(id: nat, priority: nat, timeRan: nat, status: Status)

  /** Three queues by priority, the running queue with the executing thread at its head, and the
      next thread id to give out. */
  datatype State = State(queues: seq<seq<Thread>>, run: seq<Thread>, nextId: nat)

  const LEVELS: nat := 3
  const AGE_LIMIT: nat := 375

  /** What the scheduler makes of a thread that comes back from the processor. */
  function Returned(t: Thread, wholeSlice: bool): Thread {
    var ran := t.timeRan + Quantum(t.priority);
    if ran >= AGE_LIMIT then Thread(t.id, 0, 0, Ready)
    else Thread(t.id, if wholeSlice && t.priority < 2 then t.priority + 1 else t.priority, ran, Ready)
  }

  /** How many threads a refill takes from each queue. */
  function Counts(s: State): (p: Pick)
    requires |s.queues| == LEVELS
    ensures p.p0 <= |s.queues[0]| && p.p1 <= |s.queues[1]| && p.p2 <= |s.queues[2]|
  {
    SelectionLaws(|s.queues[0]|, |s.queues[1]|, |s.queues[2]|);
    Select(|s.queues[0]|, |s.queues[1]|, |s.queues[2]|)
  }

  /** Fill the running queue: from the front of each queue, level 0 first. */
  function Refill(s: State): (r: State)
    requires |s.queues| == LEVELS
    ensures |r.queues| == LEVELS
  {
    var p, q := Counts(s), s.queues;
    s.(queues := [q[0][p.p0..], q[1][p.p1..], q[2][p.p2..]],
       run := s.run + q[0][..p.p0] + q[1][..p.p1] + q[2][..p.p2])
  }

  function Enqueue(s: State, t: Thread): (r: State)
    requires |s.queues| == LEVELS && t.priority < LEVELS
    ensures |r.queues| == LEVELS
  {
    s.(queues := s.queues[t.priority := s.queues[t.priority] + [t]])
  }

  /** The head of the running queue leaves it: for good if it exited, else to the back of its queue. */
  function Retire(s: State, wholeSlice: bool): (r: State)
    requires |s.queues| == LEVELS && s.run != [] && s.run[0].priority < LEVELS
    ensures |r.queues| == LEVELS
  {
    var s1 := s.(run := s.run[1..]);
    if s.run[0].status == Exited then s1 else Enqueue(s1, Returned(s.run[0], wholeSlice))
  }

  function Dispatch(s: State): State {
    if s.run == [] then s else s.(run := s.run[0 := s.run[0].(status := Running)])
  }

  /** One call of the scheduler by the thread at the head of the running queue.  An empty running
      queue in the result means that the process ends. */
  function Schedule(s: State, wholeSlice: bool): (r: State)
    requires |s.queues| == LEVELS && s.run != [] && s.run[0].priority < LEVELS
    ensures |r.queues| == LEVELS
  {
    var s1 := Retire(s, wholeSlice);
    Dispatch(if s1.run == [] then Refill(s1) else s1)
  }

  /** The first call: the main thread is not known yet and goes to the front of queue 0. */
  function FirstSchedule(s: State): (r: State)
    requires |s.queues| == LEVELS && s.run == []
    ensures |r.queues| == LEVELS
  {
    Dispatch(Refill(s.(queues := s.queues[0 := [Thread(1, 0, 0, Ready)] + s.queues[0]])))
  }

  // ---------- steps of the executing thread ----------

  datatype Event = Create | Yield | Timer | Exit

  function Admit(s: State): (r: State)
    requires |s.queues| == LEVELS
    ensures |r.queues| == LEVELS
  {
    Enqueue(s, Thread(s.nextId, 0, 0, Ready)).(nextId := s.nextId + 1)
  }

  function Next(s: State, e: Event): (r: State)
    requires |s.queues| == LEVELS && s.run != [] && s.run[0].priority < LEVELS
    ensures |r.queues| == LEVELS
  {
    match e
    case Create => Schedule(Admit(s), false)
    case Yield => Schedule(s, false)
    case Timer => Schedule(s, true)
    case Exit => Schedule(s.(run := s.run[0 := s.run[0].(status := Exited)]), false)
  }

  // ---------- aging ----------

  /** What the time that a thread has run says about its level. */
  predicate Aged(t: Thread) {
    && t.priority < LEVELS
    && t.timeRan % 25 == 0 && t.timeRan < AGE_LIMIT
    && (t.priority == 1 ==> t.timeRan >= 25)
    && (t.priority == 2 ==> t.timeRan >= 75)
  }

  lemma ReturnedStaysAged(t: Thread, wholeSlice: bool)
    requires Aged(t)
    ensures Aged(Returned(t, wholeSlice))
  {
  }

  /** The thread after one dispatch for each flag: did it run its whole slice? */
  function Dispatched(t: Thread, slices: seq<bool>): Thread
    decreases |slices|
  {
    if slices == [] then t else Dispatched(Returned(t, slices[0]), slices[1..])
  }

  lemma {:induction false} TimeAddsUpOrResets(t: Thread, slices: seq<bool>)
    requires Aged(t)
    ensures Aged(Dispatched(t, slices))
    ensures (exists k :: 0 < k <= |slices| && Dispatched(t, slices[..k]).timeRan == 0)
            || Dispatched(t, slices).timeRan >= t.timeRan + 25 * |slices|
    decreases |slices|
  {
    if slices != [] {
      var t1 := Returned(t, slices[0]);
      ReturnedStaysAged(t, slices[0]);
      TimeAddsUpOrResets(t1, slices[1..]);
      if t1.timeRan == 0 {
        assert Dispatched(t1, []) == t1;
        assert slices[..1][1..] == [];
        assert Dispatched(t, slices[..1]).timeRan == 0;
      } else if exists k :: 0 < k <= |slices| - 1 && Dispatched(t1, slices[1..][..k]).timeRan == 0 {
        var k :| 0 < k <= |slices| - 1 && Dispatched(t1, slices[1..][..k]).timeRan == 0;
        assert slices[..k + 1][1..] == slices[1..][..k];
        assert Dispatched(t, slices[..k + 1]).timeRan == 0;
      }
    }
  }

  /** Within any 15 dispatches a thread is set back to priority 0 and no time run. */
  lemma ResetWithin15(t: Thread, slices: seq<bool>)
    requires Aged(t) && |slices| == 15
    ensures exists k :: 0 < k <= 15 && Dispatched(t, slices[..k]).timeRan == 0 && Dispatched(t, slices[..k]).priority == 0
  {
    TimeAddsUpOrResets(t, slices);
    var k :| 0 < k <= 15 && Dispatched(t, slices[..k]).timeRan == 0;
    TimeAddsUpOrResets(t, slices[..k]);
  }

  /** A thread is dispatched at most three times in a row at level 2. */
  lemma ThreeTurnsAtLevel2(t: Thread, a: bool, b: bool, c: bool)
    requires Aged(t)
    ensures var t1 := Returned(t, a);
            var t2 := Returned(t1, b);
            t.priority == t1.priority == t2.priority == 2 ==> Returned(t2, c) == Thread(t.id, 0, 0, Ready)
  {
  }

  // ---------- every thread is in exactly one place ----------

  function Ids(q: seq<Thread>): seq<nat> {
    seq(|q|, i requires 0 <= i < |q| => q[i].id)
  }

  /** Every thread's id, as often as the thread occurs in a queue or in the running queue. */
  function Live(s: State): multiset<nat>
    requires |s.queues| == LEVELS
  {
    multiset(Ids(s.run)) + multiset(Ids(s.queues[0])) + multiset(Ids(s.queues[1])) + multiset(Ids(s.queues[2]))
  }

  ghost predicate Waiting(q: seq<Thread>) {
    forall i :: 0 <= i < |q| ==> q[i].status == Ready && Aged(q[i])
  }

  ghost predicate Invariant(s: State) {
    && |s.queues| == LEVELS
    && (forall k, i :: 0 <= k < LEVELS && 0 <= i < |s.queues[k]| ==> s.queues[k][i].priority == k)
    && (forall k :: 0 <= k < LEVELS ==> Waiting(s.queues[k]))
    && s.run != [] && s.run[0].status == Running && Aged(s.run[0])
    && Waiting(s.run[1..])
    && (forall x :: x in Live(s) ==> x < s.nextId && Live(s)[x] == 1)
  }

  lemma IdsSplit(q: seq<Thread>, n: nat)
    requires n <= |q|
    ensures multiset(Ids(q)) == multiset(Ids(q[..n])) + multiset(Ids(q[n..]))
  {
    assert Ids(q) == Ids(q[..n]) + Ids(q[n..]);
  }

  lemma IdsJoin(a: seq<Thread>, b: seq<Thread>)
    ensures multiset(Ids(a + b)) == multiset(Ids(a)) + multiset(Ids(b))
  {
    assert Ids(a + b) == Ids(a) + Ids(b);
  }

  lemma RefillConserves(s: State)
    requires |s.queues| == LEVELS
    ensures Live(Refill(s)) == Live(s)
  {
    hide Counts, Ids;
    var p, q := Counts(s), s.queues;
    IdsSplit(q[0], p.p0);
    IdsSplit(q[1], p.p1);
    IdsSplit(q[2], p.p2);
    IdsJoin(s.run, q[0][..p.p0]);
    IdsJoin(s.run + q[0][..p.p0], q[1][..p.p1]);
    IdsJoin(s.run + q[0][..p.p0] + q[1][..p.p1], q[2][..p.p2]);
  }

  lemma EnqueueConserves(s: State, t: Thread)
    requires |s.queues| == LEVELS && t.priority < LEVELS
    ensures Live(Enqueue(s, t)) == Live(s) + multiset{t.id}
  {
    IdsJoin(s.queues[t.priority], [t]);
    assert Ids([t]) == [t.id];
  }

  lemma RetireConserves(s: State, wholeSlice: bool)
    requires |s.queues| == LEVELS && s.run != [] && s.run[0].priority < LEVELS
    ensures Live(Retire(s, wholeSlice)) == if s.run[0].status == Exited then Live(s) - multiset{s.run[0].id} else Live(s)
  {
    var s1 := s.(run := s.run[1..]);
    IdsJoin([s.run[0]], s.run[1..]);
    assert [s.run[0]] + s.run[1..] == s.run;
    assert Ids([s.run[0]]) == [s.run[0].id];
    assert Live(s) == Live(s1) + multiset{s.run[0].id};
    if s.run[0].status != Exited {
      EnqueueConserves(s1, Returned(s.run[0], wholeSlice));
    }
  }

  lemma ScheduleConserves(s: State, wholeSlice: bool)
    requires |s.queues| == LEVELS && s.run != [] && s.run[0].priority < LEVELS
    ensures Live(Schedule(s, wholeSlice)) == if s.run[0].status == Exited then Live(s) - multiset{s.run[0].id} else Live(s)
  {
    hide Retire, Refill, Live, Dispatch;
    var s1 := Retire(s, wholeSlice);
    RetireConserves(s, wholeSlice);
    RefillConserves(s1);
    DispatchConserves(if s1.run == [] then Refill(s1) else s1);
  }

  lemma DispatchConserves(s: State)
    requires |s.queues| == LEVELS
    ensures |Dispatch(s).queues| == LEVELS && Live(Dispatch(s)) == Live(s)
  {
    assert Ids(Dispatch(s).run) == Ids(s.run);
  }

  /** No step loses or doubles a thread: a created one is added, an exiting one leaves. */
  lemma StepConserves(s: State, e: Event)
    requires |s.queues| == LEVELS && s.run != [] && s.run[0].priority < LEVELS && s.run[0].status != Exited
    ensures Live(Next(s, e)) == match e
                                case Create => Live(s) + multiset{s.nextId}
                                case Exit => Live(s) - multiset{s.run[0].id}
                                case _ => Live(s)
  {
    match e
    case Create =>
      EnqueueConserves(s, Thread(s.nextId, 0, 0, Ready));
      ScheduleConserves(Admit(s), false);
    case Exit =>
      var s1 := s.(run := s.run[0 := s.run[0].(status := Exited)]);
      assert Ids(s1.run) == Ids(s.run);
      ScheduleConserves(s1, false);
    case Yield => ScheduleConserves(s, false);
    case Timer => ScheduleConserves(s, true);
  }
}
