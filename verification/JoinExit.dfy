/** Threads that wait for each other: join and exit on top of the scheduler, and what holds over
    whole runs.  Library code runs without interruption from one yield to the next. */
module JoinExit {
  import opened Scheduling
  import opened SchedulingRuns

  /** A block in the list of joins.  `want`: the caller gave a place for the exit value. */
  datatype Waiter = Waiter(joiner: nat, target: nat, want: bool, done: bool)

  /** The exit value that thread id left behind; never the null pointer 0. */
  datatype Retval = Retval(id: nat, value: nat)

  datatype System = System(sched: State, joins: seq<Waiter>, retvals: seq<Retval>)

  // ---------- the two lists ----------

  /** An exiting thread wakes the first that waits for it, and no other. */
  function Woken(ws: seq<Waiter>, t: nat): (r: seq<Waiter>)
    ensures |r| == |ws|
  {
    if ws == [] then []
    else if ws[0].target == t then [ws[0].(done := true)] + ws[1..]
    else [ws[0]] + Woken(ws[1..], t)
  }

  /** The block of thread me: its index, or the length of the list. */
  function Place(ws: seq<Waiter>, me: nat): (i: nat)
    ensures i <= |ws| && (i < |ws| ==> ws[i].joiner == me) && forall k :: 0 <= k < i ==> ws[k].joiner != me
  {
    if ws == [] || ws[0].joiner == me then 0 else 1 + Place(ws[1..], me)
  }

  function Unlinked(ws: seq<Waiter>, me: nat): seq<Waiter> {
    var i := Place(ws, me);
    if i < |ws| then ws[..i] + ws[i + 1..] else ws
  }

  function Left(rs: seq<Retval>, t: nat): (i: nat)
    ensures i <= |rs| && (i < |rs| ==> rs[i].id == t) && forall k :: 0 <= k < i ==> rs[k].id != t
  {
    if rs == [] || rs[0].id == t then 0 else 1 + Left(rs[1..], t)
  }

  function Dropped(rs: seq<Retval>, t: nat): seq<Retval> {
    var i := Left(rs, t);
    if i < |rs| then rs[..i] + rs[i + 1..] else rs
  }

  // ---------- steps ----------

  /** Steps of the executing thread.  Poll is one round of the loop in join. */
  datatype Step = Other(e: Event) | Leave(value: nat) | Join(target: nat, want: bool) | Poll

  ghost predicate Scheduled(s: System) {
    Invariant(s.sched)
  }

  function Me(s: System): nat
    requires s.sched.run != []
  {
    s.sched.run[0].id
  }

  predicate Enabled(s: System, e: Step) {
    && s.sched.run != []
    && (e == Poll <==> Place(s.joins, Me(s)) < |s.joins|)
    && (e.Other? ==> e.e != Exit)
  }

  /** The values that a join by a caller who wants one takes: at most one. */
  function Takes(rs: seq<Retval>, w: Waiter): (v: seq<Retval>)
    ensures |v| <= 1
  {
    var i := Left(rs, w.target);
    if w.want && i < |rs| then [rs[i]] else []
  }

  function Finish(s: System, w: Waiter): System {
    s.(joins := Unlinked(s.joins, w.joiner),
       retvals := if w.want then Dropped(s.retvals, w.target) else s.retvals)
  }

  function Leaving(s: System, v: nat): System
    requires s.sched.run != []
  {
    s.(joins := Woken(s.joins, Me(s)), retvals := if v != 0 then [Retval(Me(s), v)] + s.retvals else s.retvals)
  }

  function Begun(s: System, w: Waiter): System {
    s.(joins := [w] + s.joins)
  }

  ghost function Next(s: System, e: Step): System
    requires Scheduled(s) && Enabled(s, e)
  {
    match e
    case Other(x) => s.(sched := Scheduling.Next(s.sched, x))
    case Leave(v) => Leaving(s, v).(sched := Scheduling.Next(s.sched, Exit))
    case Join(t, want) =>
      var w := Waiter(Me(s), t, want, false);
      if t in Live(s.sched) then Begun(s, w).(sched := Scheduling.Next(s.sched, Yield)) else Finish(Begun(s, w), w)
    case Poll =>
      var w := s.joins[Place(s.joins, Me(s))];
      if w.done then Finish(s, w) else s.(sched := Scheduling.Next(s.sched, Yield))
  }

  /** The join, if any, that returns in this step. */
  ghost function Returning(s: System, e: Step): (ws: seq<Waiter>)
    requires Scheduled(s) && Enabled(s, e)
    ensures |ws| <= 1
  {
    match e
    case Join(t, want) => if t in Live(s.sched) then [] else [Waiter(Me(s), t, want, false)]
    case Poll => var w := s.joins[Place(s.joins, Me(s))]; if w.done then [w] else []
    case _ => []
  }

  // ---------- the invariant ----------

  ghost predicate WaiterOk(s: System, w: Waiter)
    requires |s.sched.queues| == LEVELS
  {
    w.joiner in Live(s.sched) && w.target < s.sched.nextId && (w.done ==> w.target !in Live(s.sched))
  }

  ghost predicate RetvalOk(s: System, r: Retval)
    requires |s.sched.queues| == LEVELS
  {
    r.id < s.sched.nextId && r.id !in Live(s.sched) && r.value != 0
  }

  ghost predicate OneBlockEach(ws: seq<Waiter>) {
    forall i, j :: 0 <= i < j < |ws| ==> ws[i].joiner != ws[j].joiner
  }

  ghost predicate OneValueEach(rs: seq<Retval>) {
    forall i, j :: 0 <= i < j < |rs| ==> rs[i].id != rs[j].id
  }

  ghost predicate Consistent(s: System) {
    && Invariant(s.sched)
    && (forall w :: w in s.joins ==> WaiterOk(s, w)) && OneBlockEach(s.joins)
    && (forall r :: r in s.retvals ==> RetvalOk(s, r)) && OneValueEach(s.retvals)
  }

  // what the list functions do to the entries

  lemma {:induction false} WokenEntries(ws: seq<Waiter>, t: nat, k: nat)
    requires k < |ws|
    ensures Woken(ws, t)[k] == if ws[k].target == t && (forall j :: 0 <= j < k ==> ws[j].target != t)
                               then ws[k].(done := true) else ws[k]
  {
    if k > 0 && ws[0].target != t {
      WokenEntries(ws[1..], t, k - 1);
      assert (forall j :: 0 <= j < k ==> ws[j].target != t) <==> (forall j :: 0 <= j < k - 1 ==> ws[1..][j].target != t) by {
        if forall j :: 0 <= j < k - 1 ==> ws[1..][j].target != t {
          forall j | 0 <= j < k ensures ws[j].target != t {
            assert j > 0 ==> ws[j] == ws[1..][j - 1];
          }
        }
      }
    }
  }

  lemma UnlinkedEntries(ws: seq<Waiter>, me: nat)
    requires OneBlockEach(ws)
    ensures OneBlockEach(Unlinked(ws, me))
    ensures forall w :: w in Unlinked(ws, me) <==> w in ws && w.joiner != me
  {
    var i, u := Place(ws, me), Unlinked(ws, me);
    forall w ensures w in u <==> w in ws && w.joiner != me {
      if i < |ws| && w in ws && w.joiner != me {
        var k :| 0 <= k < |ws| && ws[k] == w;
        assert w == if k < i then u[k] else u[k - 1];
      }
    }
  }

  lemma DroppedEntries(rs: seq<Retval>, t: nat)
    requires OneValueEach(rs)
    ensures OneValueEach(Dropped(rs, t))
    ensures forall r :: r in Dropped(rs, t) <==> r in rs && r.id != t
  {
    var i, u := Left(rs, t), Dropped(rs, t);
    forall r ensures r in u <==> r in rs && r.id != t {
      if i < |rs| && r in rs && r.id != t {
        var k :| 0 <= k < |rs| && rs[k] == r;
        assert r == if k < i then u[k] else u[k - 1];
      }
    }
  }

  // each kind of step keeps the invariant

  lemma FinishKeeps(s: System, w: Waiter)
    requires Consistent(s)
    ensures Consistent(Finish(s, w)) && Finish(s, w).sched == s.sched
  {
    hide Invariant, Live;
    UnlinkedEntries(s.joins, w.joiner);
    DroppedEntries(s.retvals, w.target);
  }

  /** What a scheduler step other than an exit leaves as it is. */
  lemma SchedKeeps(s: System, e: Event)
    requires Consistent(s) && e != Exit
    ensures Scheduling.Next(s.sched, e).run != [] && Consistent(s.(sched := Scheduling.Next(s.sched, e)))
    ensures forall x :: x < s.sched.nextId ==> (x in Live(Scheduling.Next(s.sched, e)) <==> x in Live(s.sched))
  {
    hide Invariant, Live, Scheduling.Next;
    HeadRuns(s.sched);
    OtherLives(s.sched, e);
    SameLives(s, Scheduling.Next(s.sched, e));
  }

  lemma OtherLives(s: State, e: Event)
    requires Invariant(s) && e != Exit
    ensures var n := Scheduling.Next(s, e);
            && n.run != [] && Invariant(n) && s.nextId <= n.nextId
            && forall x :: x < s.nextId ==> (x in Live(n) <==> x in Live(s))
  {
    hide Live, Scheduling.Next;
    HeadRuns(s);
    StepKeepsInvariant(s, e);
    StepConserves(s, e);
    NextIdGrows(s, e);
  }

  lemma SameLives(s: System, n: State)
    requires Consistent(s) && Invariant(n) && s.sched.nextId <= n.nextId
    requires forall x :: x < s.sched.nextId ==> (x in Live(n) <==> x in Live(s.sched))
    ensures Consistent(s.(sched := n))
  {
    assert |n.queues| == LEVELS;
    var r := s.(sched := n);
    forall w | w in s.joins ensures WaiterOk(r, w) {
      IdsBelow(s.sched, w.joiner);
    }
    hide Invariant, Live;
  }

  lemma NextIdGrows(s: State, e: Event)
    requires Invariant(s)
    ensures Scheduling.Next(s, e).nextId == s.nextId + if e == Create then 1 else 0
  {
  }

  lemma HeadRuns(s: State)
    requires Invariant(s)
    ensures |s.queues| == LEVELS && s.run != [] && s.run[0].priority < LEVELS && s.run[0].status != Exited
    ensures s.run[0].id in Live(s) && Live(s)[s.run[0].id] == 1 && s.run[0].id < s.nextId
  {
    assert Ids(s.run)[0] == s.run[0].id;
    assert s.run[0].id in Ids(s.run);
  }

  lemma BeginKeeps(s: System, w: Waiter)
    requires Consistent(s) && w.joiner == Me(s) && Place(s.joins, Me(s)) == |s.joins|
    requires !w.done && w.target in Live(s.sched)
    ensures Consistent(Begun(s, w))
  {
    hide Invariant, Live, Place, OneBlockEach, OneValueEach;
    HeadRuns(s.sched);
    IdsBelow(s.sched, w.target);
    OneMoreBlock(s.joins, w);
    var r := Begun(s, w);
    forall b | b in r.joins ensures WaiterOk(r, b) {
      assert b == w || WaiterOk(s, b);
    }
    forall a | a in r.retvals ensures RetvalOk(r, a) {
      assert RetvalOk(s, a);
    }
  }

  lemma OneMoreBlock(ws: seq<Waiter>, w: Waiter)
    requires OneBlockEach(ws) && Place(ws, w.joiner) == |ws|
    ensures OneBlockEach([w] + ws)
  {
  }

  lemma IdsBelow(s: State, x: nat)
    requires Invariant(s) && x in Live(s)
    ensures x < s.nextId
  {
  }

  /** The scheduler's part of an exit. */
  lemma ExitLives(s: State)
    requires Invariant(s)
    ensures var n, x := Scheduling.Next(s, Exit), s.run[0].id;
            && n.nextId == s.nextId && |n.queues| == LEVELS && (n.run != [] ==> Invariant(n))
            && (n.run == [] ==> Live(n) == multiset{})
            && forall y :: y in Live(n) <==> y in Live(s) && y != x
  {
    HeadRuns(s);
    StepKeepsInvariant(s, Exit);
    StepConserves(s, Exit);
    NextIdGrows(s, Exit);
    hide Invariant, Live, Scheduling.Next;
  }

  lemma LeaveKeeps(s: System, v: nat)
    requires Consistent(s) && Enabled(s, Leave(v))
    ensures var r := Leaving(s, v).(sched := Scheduling.Next(s.sched, Exit));
            if r.sched.run != [] then Consistent(r) else Live(r.sched) == multiset{}
  {
    hide Invariant, Live, Scheduling.Next;
    HeadRuns(s.sched);
    ExitLives(s.sched);
    var n, x, ws := Scheduling.Next(s.sched, Exit), Me(s), Woken(s.joins, Me(s));
    var r := Leaving(s, v).(sched := n);
    forall k | 0 <= k < |ws| ensures WaiterOk(r, ws[k]) && ws[k].joiner == s.joins[k].joiner {
      WokenEntries(s.joins, x, k);
      assert WaiterOk(s, s.joins[k]);
    }
    forall a | a in r.retvals ensures RetvalOk(r, a) {
      assert a in s.retvals ==> RetvalOk(s, a);
    }
    assert OneBlockEach(ws);
    assert forall a :: a in s.retvals ==> RetvalOk(s, a) && a.id != x;
    assert OneValueEach(r.retvals);
  }

  /** Every step keeps the lists consistent with the scheduler, or ends the process. */
  lemma StepKeepsConsistent(s: System, e: Step)
    requires Consistent(s) && Enabled(s, e)
    ensures var r := Next(s, e); if r.sched.run != [] then Consistent(r) else Live(r.sched) == multiset{}
  {
    hide Invariant, Live, Scheduling.Next, Finish, Leaving, Begun;
    HeadRuns(s.sched);
    match e
    case Other(x) => SchedKeeps(s, x);
    case Leave(v) => LeaveKeeps(s, v);
    case Join(t, want) =>
      var w := Waiter(Me(s), t, want, false);
      if t in Live(s.sched) {
        BeginKeeps(s, w);
        SchedKeeps(Begun(s, w), Yield);
        SchedOfBegun(s, w);
      } else {
        QuickJoin(s, w);
      }
    case Poll =>
      var w := s.joins[Place(s.joins, Me(s))];
      if w.done { FinishKeeps(s, w); } else { SchedKeeps(s, Yield); }
  }

  lemma SchedOfBegun(s: System, w: Waiter)
    ensures Begun(s, w).sched == s.sched
  {
  }

  /** A join that need not wait leaves no block behind. */
  lemma QuickJoin(s: System, w: Waiter)
    requires Consistent(s)
    ensures Finish(Begun(s, w), w).joins == s.joins && Finish(Begun(s, w), w).sched == s.sched
    ensures Consistent(Finish(Begun(s, w), w))
  {
    hide Invariant, Live, Unlinked, Dropped, OneBlockEach, OneValueEach;
    HeadRuns(s.sched);
    UnlinkNewest(s.joins, w);
    DroppedEntries(s.retvals, w.target);
    var r := Finish(Begun(s, w), w);
    forall b | b in r.joins ensures WaiterOk(r, b) {
      assert WaiterOk(s, b);
    }
    forall a | a in r.retvals ensures RetvalOk(r, a) {
      assert RetvalOk(s, a);
    }
  }

  lemma UnlinkNewest(ws: seq<Waiter>, w: Waiter)
    ensures Unlinked([w] + ws, w.joiner) == ws
  {
  }

  // ---------- join and exit ----------

  /** Whoever waits for a thread that is gone has been woken. */
  ghost predicate NoLostWakeup(s: System)
    requires |s.sched.queues| == LEVELS
  {
    forall w :: w in s.joins && !w.done ==> w.target in Live(s.sched)
  }

  /** Join returns only when the thread that it waits for is in no queue; and, as long as no wakeup
      was lost, as soon as that is so. */
  lemma JoinReturnsIffGone(s: System, e: Step, target: nat)
    requires Consistent(s) && Enabled(s, e)
    requires e.Join? || e.Poll?
    requires target == if e.Join? then e.target else s.joins[Place(s.joins, Me(s))].target
    ensures Returning(s, e) != [] ==> target !in Live(s.sched) && Returning(s, e)[0].target == target
    ensures NoLostWakeup(s) && target !in Live(s.sched) ==> Returning(s, e) != []
  {
    hide Invariant, Live;
    HeadRuns(s.sched);
    if e.Poll? {
      assert WaiterOk(s, s.joins[Place(s.joins, Me(s))]);
    }
  }

  /** Nobody else, or at most one, waits for thread x. */
  ghost predicate AtMostOneWaits(ws: seq<Waiter>, x: nat) {
    forall i, j :: 0 <= i < j < |ws| && ws[i].target == x ==> ws[j].target != x
  }

  /** An exit loses no wakeup exactly when at most one thread waits for the exiting one. */
  lemma ExitWakesAllIff(s: System, v: nat)
    requires Consistent(s) && Enabled(s, Leave(v)) && NoLostWakeup(s)
    ensures NoLostWakeup(Next(s, Leave(v))) <==> AtMostOneWaits(s.joins, Me(s))
  {
    hide Invariant, Live, Scheduling.Next;
    HeadRuns(s.sched);
    ExitLives(s.sched);
    var n, x, ws := Next(s, Leave(v)), Me(s), Woken(s.joins, Me(s));
    forall k | 0 <= k < |ws| ensures WaiterOk(s, s.joins[k]) && ws[k] in n.joins {
      assert s.joins[k] in s.joins;
    }
    if AtMostOneWaits(s.joins, x) {
      forall k | 0 <= k < |ws| ensures !ws[k].done ==> ws[k].target in Live(n.sched) {
        WokenEntries(s.joins, x, k);
      }
    } else {
      var i, j :| 0 <= i < j < |s.joins| && s.joins[i].target == x && s.joins[j].target == x;
      WokenEntries(s.joins, x, j);
      assert ws[j] in n.joins && !ws[j].done;
    }
  }

  /** No other step loses a wakeup. */
  lemma StepKeepsWakeups(s: System, e: Step)
    requires Consistent(s) && Enabled(s, e) && NoLostWakeup(s) && !e.Leave?
    ensures NoLostWakeup(Next(s, e))
  {
    hide Invariant, Live, Scheduling.Next;
    HeadRuns(s.sched);
    match e
    case Other(x) => KeptWakeups(s, x);
    case Join(t, want) =>
      var w := Waiter(Me(s), t, want, false);
      if t in Live(s.sched) {
        BeginKeeps(s, w);
        KeptWakeups(Begun(s, w), Yield);
      } else {
        QuickJoin(s, w);
      }
    case Poll =>
      UnlinkedEntries(s.joins, Me(s));
      if !s.joins[Place(s.joins, Me(s))].done { KeptWakeups(s, Yield); }
  }

  lemma KeptWakeups(s: System, e: Event)
    requires Consistent(s) && e != Exit && NoLostWakeup(s)
    ensures Scheduling.Next(s.sched, e).run != [] && NoLostWakeup(s.(sched := Scheduling.Next(s.sched, e)))
  {
    hide Invariant, Live, Scheduling.Next;
    HeadRuns(s.sched);
    SchedKeeps(s, e);
    forall w | w in s.joins && !w.done ensures w.target in Live(Scheduling.Next(s.sched, e)) {
      assert WaiterOk(s, w);
    }
  }

  /** The thread that waits at w can no longer be woken. */
  ghost predicate Lost(s: System, w: Waiter)
    requires |s.sched.queues| == LEVELS
  {
    w in s.joins && !w.done && w.target !in Live(s.sched)
  }

  /** A lost waiter stays lost, whatever is done, and its join does not return. */
  lemma StepKeepsLost(s: System, e: Step, w: Waiter)
    requires Consistent(s) && Enabled(s, e) && Lost(s, w)
    ensures Lost(Next(s, e), w) && w !in Returning(s, e)
  {
    hide Invariant, Live, Scheduling.Next;
    HeadRuns(s.sched);
    assert WaiterOk(s, w);
    match e
    case Other(x) => SchedKeeps(s, x);
    case Leave(v) =>
      ExitLives(s.sched);
      var k :| 0 <= k < |s.joins| && s.joins[k] == w;
      WokenEntries(s.joins, Me(s), k);
    case Join(t, want) =>
      var b := Waiter(Me(s), t, want, false);
      if t in Live(s.sched) {
        BeginKeeps(s, b);
        SchedKeeps(Begun(s, b), Yield);
      } else {
        QuickJoin(s, b);
      }
    case Poll =>
      OwnBlock(s.joins, w, Me(s));
      UnlinkedEntries(s.joins, Me(s));
      if !s.joins[Place(s.joins, Me(s))].done { SchedKeeps(s, Yield); }
  }

  lemma OwnBlock(ws: seq<Waiter>, w: Waiter, me: nat)
    requires OneBlockEach(ws) && w in ws && Place(ws, me) < |ws|
    ensures w.joiner == me ==> ws[Place(ws, me)] == w
  {
  }

  // ---------- exit values ----------

  /** The exit value that a step leaves. */
  ghost function LeftBy(s: System, e: Step): seq<Retval>
    requires s.sched.run != []
  {
    if e.Leave? && e.value != 0 then [Retval(Me(s), e.value)] else []
  }

  /** The exit value that a step delivers. */
  ghost function GivenBy(s: System, e: Step): (v: seq<Retval>)
    requires Scheduled(s) && Enabled(s, e)
    ensures |v| <= 1
  {
    if Returning(s, e) == [] then [] else Takes(s.retvals, Returning(s, e)[0])
  }

  /** A join whose caller wants the value gets exactly what the thread left, and takes it away. */
  lemma JoinDelivers(s: System, e: Step, w: Waiter, v: nat)
    requires Consistent(s) && Enabled(s, e) && Returning(s, e) == [w] && w.want
    ensures GivenBy(s, e) == [Retval(w.target, v)] <==> Retval(w.target, v) in s.retvals
    ensures forall r :: r in Next(s, e).retvals <==> r in s.retvals && r.id != w.target
  {
    hide Invariant, Live, Scheduling.Next;
    DroppedEntries(s.retvals, w.target);
    if Retval(w.target, v) in s.retvals {
      var k :| 0 <= k < |s.retvals| && s.retvals[k] == Retval(w.target, v);
      assert k == Left(s.retvals, w.target);
    }
  }

  lemma DroppedConserves(rs: seq<Retval>, w: Waiter)
    ensures multiset(rs) == multiset(if w.want then Dropped(rs, w.target) else rs) + multiset(Takes(rs, w))
  {
    var i := Left(rs, w.target);
    if i < |rs| {
      assert rs == rs[..i] + [rs[i]] + rs[i + 1..];
    }
  }

  lemma StepConservesValues(s: System, e: Step)
    requires Scheduled(s) && Enabled(s, e)
    ensures multiset(s.retvals) + multiset(LeftBy(s, e)) == multiset(Next(s, e).retvals) + multiset(GivenBy(s, e))
  {
    hide Invariant, Live, Scheduling.Next, Takes, Dropped;
    if Returning(s, e) != [] {
      DroppedConserves(s.retvals, Returning(s, e)[0]);
    }
  }

  // ---------- whole runs ----------

  ghost predicate Proper(s: System) {
    s.sched.run != [] ==> Consistent(s)
  }

  ghost predicate Legal(s: System, es: seq<Step>)
    requires Proper(s)
    decreases |es|
  {
    es == [] || (Enabled(s, es[0]) && (StepKeepsConsistent(s, es[0]); Legal(Next(s, es[0]), es[1..])))
  }

  ghost function Run(s: System, es: seq<Step>): (r: System)
    requires Proper(s) && Legal(s, es)
    ensures Proper(r)
    decreases |es|
  {
    if es == [] then s else StepKeepsConsistent(s, es[0]); Run(Next(s, es[0]), es[1..])
  }

  ghost function AllLeft(s: System, es: seq<Step>): seq<Retval>
    requires Proper(s) && Legal(s, es)
    decreases |es|
  {
    if es == [] then [] else StepKeepsConsistent(s, es[0]); LeftBy(s, es[0]) + AllLeft(Next(s, es[0]), es[1..])
  }

  ghost function AllGiven(s: System, es: seq<Step>): seq<Retval>
    requires Proper(s) && Legal(s, es)
    decreases |es|
  {
    if es == [] then [] else StepKeepsConsistent(s, es[0]); GivenBy(s, es[0]) + AllGiven(Next(s, es[0]), es[1..])
  }

  /** Over any run, every exit value is either still waiting or was delivered, once and unchanged. */
  lemma {:induction false} RunConservesValues(s: System, es: seq<Step>)
    requires Proper(s) && Legal(s, es)
    ensures multiset(s.retvals) + multiset(AllLeft(s, es)) == multiset(Run(s, es).retvals) + multiset(AllGiven(s, es))
    decreases |es|
  {
    hide Next, LeftBy, GivenBy, Consistent;
    if es != [] {
      ConsistentIsScheduled(s);
      StepKeepsConsistent(s, es[0]);
      StepConservesValues(s, es[0]);
      var n := Next(s, es[0]);
      RunConservesValues(n, es[1..]);
      assert multiset(AllLeft(s, es)) == multiset(LeftBy(s, es[0])) + multiset(AllLeft(n, es[1..]));
      assert multiset(AllGiven(s, es)) == multiset(GivenBy(s, es[0])) + multiset(AllGiven(n, es[1..]));
      Combine(multiset(s.retvals), multiset(LeftBy(s, es[0])), multiset(n.retvals), multiset(GivenBy(s, es[0])),
              multiset(AllLeft(n, es[1..])), multiset(Run(s, es).retvals), multiset(AllGiven(n, es[1..])));
    }
  }

  lemma Combine<T>(a: multiset<T>, b: multiset<T>, c: multiset<T>, d: multiset<T>, e: multiset<T>, f: multiset<T>, g: multiset<T>)
    requires a + b == c + d && c + e == f + g
    ensures a + (b + e) == f + (d + g)
  {
    assert a + (b + e) == (c + d) + e;
    assert f + (d + g) == (c + e) + d;
  }

  lemma ConsistentIsScheduled(s: System)
    requires Consistent(s)
    ensures Scheduled(s)
  {
  }

  /** Thread x may still have an exit value delivered: it left one, or lives, or is still to come. */
  ghost predicate Owed(s: System, x: nat)
    requires |s.sched.queues| == LEVELS
  {
    (exists r :: r in s.retvals && r.id == x) || x in Live(s.sched) || x >= s.sched.nextId
  }

  lemma StepPaysOff(s: System, e: Step, x: nat)
    requires Consistent(s) && Enabled(s, e)
    ensures Owed(Next(s, e), x) ==> Owed(s, x)
    ensures forall r :: r in GivenBy(s, e) ==> r in s.retvals && !Owed(Next(s, e), r.id)
  {
    hide Invariant, Live, Scheduling.Next;
    HeadRuns(s.sched);
    DroppedAway(s, e);
    LivesAfter(s, e, x);
    forall r | r in GivenBy(s, e) ensures r in s.retvals && !Owed(Next(s, e), r.id) {
      assert RetvalOk(s, r);
    }
  }

  /** Only the exiting thread stops living, and only a created one starts. */
  lemma LivesAfter(s: System, e: Step, x: nat)
    requires Consistent(s) && Enabled(s, e)
    ensures var n := Next(s, e);
            && |n.sched.queues| == LEVELS && s.sched.nextId <= n.sched.nextId
            && (x < s.sched.nextId && x in Live(n.sched) ==> x in Live(s.sched))
            && (e.Leave? ==> Me(s) in Live(s.sched))
            && (GivenBy(s, e) != [] ==> n.sched == s.sched)
  {
    hide Live, Scheduling.Next;
    HeadRuns(s.sched);
    match e
    case Other(o) => OtherLives(s.sched, o);
    case Leave(v) => ExitLives(s.sched);
    case Join(t, want) => OtherLives(s.sched, Yield);
    case Poll => OtherLives(s.sched, Yield);
  }

  lemma DroppedAway(s: System, e: Step)
    requires Consistent(s) && Enabled(s, e)
    ensures forall r :: r in GivenBy(s, e) ==> r in s.retvals && forall q :: q in Next(s, e).retvals ==> q.id != r.id
    ensures forall q :: q in Next(s, e).retvals ==> q in s.retvals || (e.Leave? && q.id == Me(s))
  {
    hide Invariant, Live, Scheduling.Next;
    if Returning(s, e) != [] {
      DroppedEntries(s.retvals, Returning(s, e)[0].target);
    }
  }

  /** Over any run no thread's exit value is delivered twice. */
  lemma {:induction false} DeliveredOnce(s: System, es: seq<Step>)
    requires Proper(s) && Legal(s, es) && |s.sched.queues| == LEVELS
    ensures OneValueEach(AllGiven(s, es))
    ensures forall r :: r in AllGiven(s, es) ==> Owed(s, r.id)
    decreases |es|
  {
    hide Next, GivenBy, Consistent, Owed;
    if es != [] {
      ConsistentIsScheduled(s);
      StepKeepsConsistent(s, es[0]);
      var n, rest := Next(s, es[0]), es[1..];
      LivesAfter(s, es[0], 0);
      DeliveredOnce(n, rest);
      forall x ensures Owed(n, x) ==> Owed(s, x) {
        StepPaysOff(s, es[0], x);
      }
      StepPaysOff(s, es[0], 0);
      forall r | r in GivenBy(s, es[0]) ensures Owed(s, r.id) {
        InListIsOwed(s, r);
      }
      AppendedOnce(GivenBy(s, es[0]), AllGiven(n, rest));
    }
  }

  lemma InListIsOwed(s: System, r: Retval)
    requires |s.sched.queues| == LEVELS && r in s.retvals
    ensures Owed(s, r.id)
  {
  }

  lemma AppendedOnce(a: seq<Retval>, b: seq<Retval>)
    requires |a| <= 1 && OneValueEach(b) && (a != [] ==> forall r :: r in b ==> r.id != a[0].id)
    ensures OneValueEach(a + b)
  {
  }

  /** Every exit of the run is of a thread that at most one other waits for. */
  ghost predicate OneJoinerAtExits(s: System, es: seq<Step>)
    requires Proper(s) && Legal(s, es)
    decreases |es|
  {
    es == [] || (
      StepKeepsConsistent(s, es[0]);
      (es[0].Leave? ==> AtMostOneWaits(s.joins, Me(s))) && OneJoinerAtExits(Next(s, es[0]), es[1..]))
  }

  lemma {:induction false} RunKeepsLost(s: System, es: seq<Step>, w: Waiter)
    requires Proper(s) && Legal(s, es) && |s.sched.queues| == LEVELS && Lost(s, w)
    ensures |Run(s, es).sched.queues| == LEVELS && Lost(Run(s, es), w)
    decreases |es|
  {
    hide Next, Consistent, Lost;
    if es != [] {
      ConsistentIsScheduled(s);
      StepKeepsConsistent(s, es[0]);
      LivesAfter(s, es[0], 0);
      StepKeepsLost(s, es[0], w);
      RunKeepsLost(Next(s, es[0]), es[1..], w);
    }
  }

  /** A run loses no wakeup exactly when no thread exits that two others wait for; a wakeup that is
      lost stays lost. */
  lemma {:induction false} NoWakeupLostIff(s: System, es: seq<Step>)
    requires Proper(s) && Legal(s, es) && |s.sched.queues| == LEVELS && NoLostWakeup(s)
    ensures |Run(s, es).sched.queues| == LEVELS
    ensures NoLostWakeup(Run(s, es)) <==> OneJoinerAtExits(s, es)
    decreases |es|
  {
    hide Next, Consistent, Lost, AtMostOneWaits;
    if es != [] {
      ConsistentIsScheduled(s);
      StepKeepsConsistent(s, es[0]);
      LivesAfter(s, es[0], 0);
      var n := Next(s, es[0]);
      if es[0].Leave? { ExitWakesAllIff(s, es[0].value); } else { StepKeepsWakeups(s, es[0]); }
      if NoLostWakeup(n) {
        NoWakeupLostIff(n, es[1..]);
      } else {
        var w := SomeLost(n);
        RunKeepsLost(n, es[1..], w);
        LostIsLost(Run(n, es[1..]), w);
      }
    }
  }

  lemma SomeLost(s: System) returns (w: Waiter)
    requires |s.sched.queues| == LEVELS && !NoLostWakeup(s)
    ensures Lost(s, w)
  {
    w :| w in s.joins && !w.done && w.target !in Live(s.sched);
  }

  lemma LostIsLost(s: System, w: Waiter)
    requires |s.sched.queues| == LEVELS && Lost(s, w)
    ensures !NoLostWakeup(s)
  {
  }
}
