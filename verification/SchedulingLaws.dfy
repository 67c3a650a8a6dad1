/** What the scheduler does with a thread, in the program's own numbers: how a slice counts, where the
    thread goes, and what its level says after a whole run. */
module SchedulingLaws {
  import opened RefillSelection
  import opened Scheduling
  import opened SchedulingRuns

  /** Milliseconds in a slice of this level. */
  function Slice(level: nat): nat {
    if level == 0 then 25 else if level == 1 then 50 else 100
  }

  /** A thread that ran for less than 375 ms is one level lower after a whole slice, though no lower
      than level 2, and stays at its level if it gave way; after 375 ms it starts again at level 0. */
  lemma SliceCounts(t: Thread, wholeSlice: bool)
    requires t.priority <= 2
    ensures var r, ran := Returned(t, wholeSlice), t.timeRan + (if t.priority == 0 then 25 else if t.priority == 1 then 50 else 100);
            && r.id == t.id && r.status == Ready
            && (ran >= 375 ==> r.priority == 0 && r.timeRan == 0)
            && (ran < 375 ==> r.timeRan == ran)
            && (ran < 375 && wholeSlice ==> r.priority == if t.priority < 2 then t.priority + 1 else 2)
            && (ran < 375 && !wholeSlice ==> r.priority == t.priority)
  {
  }

  // ---------- one step ----------

  /** Where the executing thread goes, and how it looks there. */
  function Comeback(h: Thread, wholeSlice: bool): Thread {
    var ran := h.timeRan + Slice(h.priority);
    if ran >= 375 then Thread(h.id, 0, 0, Ready)
    else if wholeSlice && h.priority < 2 then Thread(h.id, h.priority + 1, ran, Ready)
    else Thread(h.id, h.priority, ran, Ready)
  }

  /** The lists before the next thread is chosen: a created thread, number nextId, waits at the end of
      queue 0; then the executing thread is the last of its queue, or gone if it exits. */
  function Requeued(s: State, e: Event): (r: State)
    requires |s.queues| == 3 && s.run != [] && s.run[0].priority <= 2
    ensures |r.queues| == 3
  {
    var q := if e == Create then s.queues[0 := s.queues[0] + [Thread(s.nextId, 0, 0, Ready)]] else s.queues;
    var t := Comeback(s.run[0], e == Timer);
    State(if e == Exit then q else q[t.priority := q[t.priority] + [t]],
          s.run[1..],
          if e == Create then s.nextId + 1 else s.nextId)
  }

  function Executing(run: seq<Thread>): seq<Thread> {
    if run == [] then [] else [run[0].(status := Running)] + run[1..]
  }

  /** Every step: the next of the running queue executes; if there is none, the fronts of the queues
      are taken, level 0 first, as many as the laws of the fill allow. */
  lemma StepIs(s: State, e: Event) returns (p: Pick)
    requires Invariant(s)
    ensures |s.queues| == 3 && s.run != [] && s.run[0].priority <= 2
    ensures var r, n := Requeued(s, e), Next(s, e);
            && n.nextId == r.nextId && |n.queues| == 3
            && (r.run != [] ==> n.run == Executing(r.run) && n.queues == r.queues)
            && (r.run == [] ==>
                  && FillLaws(|r.queues[0]|, |r.queues[1]|, |r.queues[2]|, p)
                  && n.run == Executing(r.queues[0][..p.p0] + r.queues[1][..p.p1] + r.queues[2][..p.p2])
                  && n.queues == [r.queues[0][p.p0..], r.queues[1][p.p1..], r.queues[2][p.p2..]])
  {
    hide Invariant, Requeued, Select, FillLaws, Refill, Dispatch, Next, Executing;
    HeadIs(s);
    var r := Requeued(s, e);
    p := Select(|r.queues[0]|, |r.queues[1]|, |r.queues[2]|);
    SelectMeetsLaws(|r.queues[0]|, |r.queues[1]|, |r.queues[2]|);
    PickFits(|r.queues[0]|, |r.queues[1]|, |r.queues[2]|, p);
    NextIsRequeued(s, e);
    var d := if r.run == [] then Refill(r) else r;
    DispatchIs(d);
    if r.run == [] { RefillIs(r, p); }
  }

  lemma PickFits(n0: nat, n1: nat, n2: nat, p: Pick)
    requires FillLaws(n0, n1, n2, p)
    ensures p.p0 <= n0 && p.p1 <= n1 && p.p2 <= n2
  {
  }

  lemma DispatchIs(s: State)
    ensures Dispatch(s) == s.(run := Executing(s.run))
  {
  }

  lemma HeadIs(s: State)
    requires Invariant(s)
    ensures |s.queues| == 3 && s.run != [] && s.run[0].priority <= 2 && s.run[0].status == Running
  {
  }

  lemma NextIsRequeued(s: State, e: Event)
    requires |s.queues| == 3 && s.run != [] && s.run[0].priority <= 2 && s.run[0].status == Running
    ensures var r := Requeued(s, e); Next(s, e) == Dispatch(if r.run == [] then Refill(r) else r)
  {
    hide Refill, Dispatch;
  }

  lemma RefillIs(r: State, p: Pick)
    requires |r.queues| == 3 && r.run == [] && p == Select(|r.queues[0]|, |r.queues[1]|, |r.queues[2]|)
    requires p.p0 <= |r.queues[0]| && p.p1 <= |r.queues[1]| && p.p2 <= |r.queues[2]|
    ensures Refill(r).run == r.queues[0][..p.p0] + r.queues[1][..p.p1] + r.queues[2][..p.p2]
    ensures Refill(r).queues == [r.queues[0][p.p0..], r.queues[1][p.p1..], r.queues[2][p.p2..]] && Refill(r).nextId == r.nextId
  {
    hide Select;
  }

  /** The first call: the main thread, number 1, comes before the threads that were created. */
  lemma FirstCallIs(s: State) returns (p: Pick)
    requires |s.queues| == 3 && s.run == []
    ensures var q0, n := [Thread(1, 0, 0, Ready)] + s.queues[0], FirstSchedule(s);
            && FillLaws(|q0|, |s.queues[1]|, |s.queues[2]|, p) && n.nextId == s.nextId
            && n.run == Executing(q0[..p.p0] + s.queues[1][..p.p1] + s.queues[2][..p.p2])
            && n.queues == [q0[p.p0..], s.queues[1][p.p1..], s.queues[2][p.p2..]]
  {
    var r := s.(queues := s.queues[0 := [Thread(1, 0, 0, Ready)] + s.queues[0]]);
    p := Select(|r.queues[0]|, |r.queues[1]|, |r.queues[2]|);
    SelectMeetsLaws(|r.queues[0]|, |r.queues[1]|, |r.queues[2]|);
    RefillIs(r, p);
  }

  /** After the timer the executing thread is the last of the queue one level lower, after a yield the
      last of its own; the second of the running queue executes. */
  lemma TimerDemotes(s: State)
    requires Invariant(s) && |s.run| > 1
    ensures var h, n, y := s.run[0], Next(s, Timer), Next(s, Yield);
            var ran, k := h.timeRan + Slice(h.priority), if h.priority < 2 then h.priority + 1 else 2;
            && h.priority <= 2 && |s.queues| == 3 && n.run[0] == s.run[1].(status := Running) && y.run == n.run
            && (ran < 375 ==> n.queues == s.queues[k := s.queues[k] + [Thread(h.id, k, ran, Ready)]])
            && (ran < 375 ==> y.queues == s.queues[h.priority := s.queues[h.priority] + [Thread(h.id, h.priority, ran, Ready)]])
            && (ran >= 375 ==> n.queues == y.queues == s.queues[0 := s.queues[0] + [Thread(h.id, 0, 0, Ready)]])
  {
    HeadIs(s);
    hide Invariant, Returned;
    var p := StepIs(s, Timer);
    p := StepIs(s, Yield);
  }

  // ---------- what the level says ----------

  function WholeSlices(slices: seq<bool>): nat
    decreases |slices|
  {
    if slices == [] then 0 else (if slices[0] then 1 else 0) + WholeSlices(slices[1..])
  }

  /** As long as a thread is not set back, its level is the number of its whole slices, up to 2. */
  lemma {:induction false} LevelCountsSlices(t: Thread, slices: seq<bool>)
    requires Aged(t)
    requires forall k :: 0 < k <= |slices| ==> Dispatched(t, slices[..k]).timeRan != 0
    ensures Dispatched(t, slices).priority == var n := t.priority + WholeSlices(slices); if n < 2 then n else 2
    decreases |slices|
  {
    if slices != [] {
      var t1 := Returned(t, slices[0]);
      ReturnedStaysAged(t, slices[0]);
      assert slices[..1][1..] == [] && Dispatched(t, slices[..1]) == t1;
      forall k | 0 < k <= |slices| - 1 ensures Dispatched(t1, slices[1..][..k]).timeRan != 0 {
        assert slices[..k + 1][1..] == slices[1..][..k];
      }
      SliceCounts(t, slices[0]);
      LevelCountsSlices(t1, slices[1..]);
    }
  }

  // ---------- over runs ----------

  /** Thread t is in the running queue or waits, whatever its status. */
  ghost predicate Has(s: State, t: Thread) {
    exists st :: t.(status := st) in s.run || exists k :: 0 <= k < |s.queues| && t.(status := st) in s.queues[k]
  }

  /** The slices that thread id runs in a run, as long as it does not exit: was each one whole? */
  ghost function SlicesOf(s: State, es: seq<Event>, id: nat): seq<bool>
    requires s.run == [] || Invariant(s)
    decreases |es|
  {
    if es == [] || s.run == [] then [] else
      StepKeepsInvariant(s, es[0]);
      (if s.run[0].id == id then [es[0] == Timer] else []) + SlicesOf(Next(s, es[0]), es[1..], id)
  }

  ghost predicate NeverExits(s: State, es: seq<Event>, id: nat)
    requires s.run == [] || Invariant(s)
    decreases |es|
  {
    es == [] || s.run == [] || (
      StepKeepsInvariant(s, es[0]);
      (s.run[0].id == id ==> es[0] != Exit) && NeverExits(Next(s, es[0]), es[1..], id))
  }

  lemma HasLive(s: State, t: Thread)
    requires |s.queues| == 3 && Has(s, t)
    ensures Live(s) != multiset{}
  {
    hide Ids;
    var st :| t.(status := st) in s.run || exists k :: 0 <= k < |s.queues| && t.(status := st) in s.queues[k];
    if t.id !in Live(s) { NotAmong(s, t.(status := st)); }
  }

  /** Nobody but the executing thread has its number. */
  lemma HeadOnce(s: State, t: Thread)
    requires Invariant(s) && Has(s, t) && t.id == s.run[0].id
    ensures t.(status := Running) == s.run[0]
  {
    var x := t.id;
    assert s.run == [s.run[0]] + s.run[1..];
    IdsJoin([s.run[0]], s.run[1..]);
    assert Ids([s.run[0]]) == [x];
    assert Live(s)[x] == 1 by { assert x in Live(s); }
    var rest := State(s.queues, s.run[1..], s.nextId);
    assert Live(s) == multiset{x} + Live(rest);
    var st :| t.(status := st) in s.run || exists k :: 0 <= k < |s.queues| && t.(status := st) in s.queues[k];
    if t.(status := st) != s.run[0] {
      assert t.(status := st) in s.run ==> t.(status := st) in rest.run;
      NotAmong(rest, t.(status := st));
    }
  }

  lemma NotAmong(s: State, t: Thread)
    requires |s.queues| == 3 && t.id !in Live(s)
    ensures t !in s.run && forall k :: 0 <= k < 3 ==> t !in s.queues[k]
  {
    if t in s.run { IdIsThere(s.run, t); }
    if t in s.queues[0] { IdIsThere(s.queues[0], t); }
    if t in s.queues[1] { IdIsThere(s.queues[1], t); }
    if t in s.queues[2] { IdIsThere(s.queues[2], t); }
  }

  lemma IdIsThere(q: seq<Thread>, t: Thread)
    requires t in q
    ensures t.id in multiset(Ids(q))
  {
    var i :| 0 <= i < |q| && q[i] == t;
    assert Ids(q)[i] == t.id;
  }

  lemma RequeuedHas(s: State, e: Event, t: Thread)
    requires |s.queues| == 3 && s.run != [] && s.run[0].priority <= 2 && Has(s, t) && t.id != s.run[0].id
    ensures Has(Requeued(s, e), t)
  {
    hide Comeback;
    var r := Requeued(s, e);
    var st :| t.(status := st) in s.run || exists k :: 0 <= k < |s.queues| && t.(status := st) in s.queues[k];
    if t.(status := st) in s.run {
      assert s.run == [s.run[0]] + s.run[1..];
      assert t.(status := st) in r.run;
    } else {
      var k :| 0 <= k < |s.queues| && t.(status := st) in s.queues[k];
      assert t.(status := st) in r.queues[k];
    }
  }

  lemma RequeuedHasHead(s: State, e: Event)
    requires |s.queues| == 3 && s.run != [] && s.run[0].priority <= 2 && e != Exit
    ensures Has(Requeued(s, e), Comeback(s.run[0], e == Timer))
  {
    var c := Comeback(s.run[0], e == Timer);
    assert c in Requeued(s, e).queues[c.priority];
    assert c.(status := c.status) == c;
  }

  lemma ExecutingHas(r: State, n: State, t: Thread)
    requires Has(r, t) && n.run == Executing(r.run) && n.queues == r.queues
    ensures Has(n, t)
  {
    var st :| t.(status := st) in r.run || exists k :: 0 <= k < |r.queues| && t.(status := st) in r.queues[k];
    if t.(status := st) in r.run {
      var i :| 0 <= i < |r.run| && r.run[i] == t.(status := st);
      assert n.run[i] in n.run && t.(status := n.run[i].status) == n.run[i];
    }
  }

  lemma DealtHas(r: State, d: State, p: Pick, t: Thread)
    requires |r.queues| == 3 && r.run == [] && Has(r, t)
    requires p.p0 <= |r.queues[0]| && p.p1 <= |r.queues[1]| && p.p2 <= |r.queues[2]|
    requires d.run == r.queues[0][..p.p0] + r.queues[1][..p.p1] + r.queues[2][..p.p2]
    requires d.queues == [r.queues[0][p.p0..], r.queues[1][p.p1..], r.queues[2][p.p2..]]
    ensures Has(d, t)
  {
    var st, k :| 0 <= k < |r.queues| && t.(status := st) in r.queues[k];
    var n := if k == 0 then p.p0 else if k == 1 then p.p1 else p.p2;
    assert r.queues[k] == r.queues[k][..n] + r.queues[k][n..];
    if t.(status := st) in r.queues[k][n..] {
      assert t.(status := st) in d.queues[k];
    } else {
      assert t.(status := st) in d.run;
    }
  }

  /** One step leaves every thread as it is but the executing one, which returns with one slice more. */
  lemma StepHas(s: State, e: Event, t: Thread)
    requires Invariant(s) && Has(s, t) && !(s.run[0].id == t.id && e == Exit)
    ensures |s.queues| == 3 && s.run != [] && s.run[0].priority <= 2
    ensures Has(Next(s, e), if s.run[0].id == t.id then Returned(t, e == Timer) else t)
  {
    HeadIs(s);
    var p := StepIs(s, e);
    var r, n := Requeued(s, e), Next(s, e);
    var t' := if s.run[0].id == t.id then Returned(t, e == Timer) else t;
    if s.run[0].id == t.id {
      HeadOnce(s, t);
      ComesBack(s.run[0], t, e == Timer);
      RequeuedHasHead(s, e);
    } else {
      RequeuedHas(s, e, t);
    }
    hide Invariant, Requeued, Next, Executing, Returned, Comeback, Has;
    assert Has(r, t');
    if r.run == [] {
      PickFits(|r.queues[0]|, |r.queues[1]|, |r.queues[2]|, p);
      var d := State([r.queues[0][p.p0..], r.queues[1][p.p1..], r.queues[2][p.p2..]],
                     r.queues[0][..p.p0] + r.queues[1][..p.p1] + r.queues[2][..p.p2], r.nextId);
      DealtHas(r, d, p, t');
      ExecutingHas(d, n, t');
    } else {
      ExecutingHas(r, n, t');
    }
  }

  lemma ComesBack(h: Thread, t: Thread, wholeSlice: bool)
    requires h == t.(status := Running) && t.priority <= 2
    ensures Comeback(h, wholeSlice) == Returned(t, wholeSlice)
  {
  }

  /** Over any run in which a thread does not exit, its level and time change by its own slices only. */
  lemma {:induction false} RunDispatches(s: State, es: seq<Event>, t: Thread)
    requires Invariant(s) && Has(s, t) && NeverExits(s, es, t.id)
    ensures Has(Run(s, es), Dispatched(t, SlicesOf(s, es, t.id)))
    decreases |es|
  {
    hide Next, Has, Live, Returned, Invariant;
    if es != [] {
      HeadIs(s);
      StepKeepsInvariant(s, es[0]);
      StepHas(s, es[0], t);
      var own := s.run[0].id == t.id;
      var t1, n := if own then Returned(t, es[0] == Timer) else t, Next(s, es[0]);
      assert t1.id == t.id by { ReturnedKeepsId(t, es[0] == Timer); }
      HasLive(n, t1);
      RunDispatches(n, es[1..], t1);
      var rest := SlicesOf(n, es[1..], t.id);
      assert ([es[0] == Timer] + rest)[1..] == rest && [] + rest == rest;
    }
  }

  lemma ReturnedKeepsId(t: Thread, wholeSlice: bool)
    ensures Returned(t, wholeSlice).id == t.id
  {
  }

  /** Over any run: a thread that starts at level 0, and is not set back, is at the level that counts
      its whole slices. */
  lemma LevelAfterRun(s: State, es: seq<Event>, t: Thread)
    requires Invariant(s) && Has(s, t) && t.priority == t.timeRan == 0 && NeverExits(s, es, t.id)
    requires var own := SlicesOf(s, es, t.id); forall k :: 0 < k <= |own| ==> Dispatched(t, own[..k]).timeRan != 0
    ensures var now, n := Dispatched(t, SlicesOf(s, es, t.id)), WholeSlices(SlicesOf(s, es, t.id));
            Has(Run(s, es), now) && now.priority == if n < 2 then n else 2
  {
    hide Next, Has, Live, Returned, Invariant;
    RunDispatches(s, es, t);
    LevelCountsSlices(t, SlicesOf(s, es, t.id));
  }
}
