/** What each step of join and exit does to the two lists, entry by entry. */
module JoinLaws {
  import opened Scheduling
  import opened SchedulingRuns
  import opened JoinExit

  /** Block k is the first that waits for thread x. */
  predicate FirstFor(ws: seq<Waiter>, x: nat, k: nat) {
    k < |ws| && ws[k].target == x && forall j :: 0 <= j < k ==> ws[j].target != x
  }

  /** Value i is the first that thread x left. */
  predicate FirstOf(rs: seq<Retval>, x: nat, i: nat) {
    i < |rs| && rs[i].id == x && forall j :: 0 <= j < i ==> rs[j].id != x
  }

  predicate NoneOf(rs: seq<Retval>, x: nat) {
    forall j :: 0 <= j < |rs| ==> rs[j].id != x
  }

  /** Thread x is in a queue or in the running queue. */
  ghost predicate Lives(s: State, x: nat) {
    || (exists i :: 0 <= i < |s.run| && s.run[i].id == x)
    || (exists k, i :: 0 <= k < |s.queues| && 0 <= i < |s.queues[k]| && s.queues[k][i].id == x)
  }

  lemma IdsHave(q: seq<Thread>, x: nat)
    ensures x in multiset(Ids(q)) <==> exists i :: 0 <= i < |q| && q[i].id == x
  {
    if i :| 0 <= i < |q| && q[i].id == x {
      assert Ids(q)[i] == x;
    }
    if x in multiset(Ids(q)) {
      var i :| 0 <= i < |Ids(q)| && Ids(q)[i] == x;
      assert q[i].id == x;
    }
  }

  lemma LivesIff(s: State, x: nat)
    requires |s.queues| == 3
    ensures x in Live(s) <==> Lives(s, x)
  {
    hide Ids;
    IdsHave(s.run, x);
    IdsHave(s.queues[0], x);
    IdsHave(s.queues[1], x);
    IdsHave(s.queues[2], x);
  }

  /** On exit the first block that waits for the thread is marked done, and no other block changes; a
      value other than the null pointer goes to the front. */
  lemma LeaveIs(s: System, v: nat)
    requires Scheduled(s) && Enabled(s, Leave(v))
    ensures var x, n := s.sched.run[0].id, JoinExit.Next(s, Leave(v));
            && |n.joins| == |s.joins|
            && (forall k :: 0 <= k < |s.joins| ==>
                  n.joins[k] == if FirstFor(s.joins, x, k) then s.joins[k].(done := true) else s.joins[k])
            && n.retvals == (if v == 0 then s.retvals else [Retval(x, v)] + s.retvals)
            && n.sched == Scheduling.Next(s.sched, Exit)
  {
    hide Scheduled, Scheduling.Next, Woken;
    forall k | 0 <= k < |s.joins|
      ensures Woken(s.joins, Me(s))[k] == if FirstFor(s.joins, Me(s), k) then s.joins[k].(done := true) else s.joins[k]
    {
      WokenEntries(s.joins, Me(s), k);
    }
  }

  /** What a join that returns does with the values: the first that the target left is taken out and
      given to a caller who wants one. */
  ghost predicate Delivers(rs: seq<Retval>, rs': seq<Retval>, given: seq<Retval>, target: nat, want: bool) {
    if !want || NoneOf(rs, target) then rs' == rs && given == []
    else exists i: nat :: FirstOf(rs, target, i) && given == [rs[i]] && rs' == rs[..i] + rs[i + 1..]
  }

  lemma FinishDelivers(s: System, w: Waiter)
    ensures Delivers(s.retvals, Finish(s, w).retvals, if w.want then Takes(s.retvals, w) else [], w.target, w.want)
  {
    ValueDelivers(s.retvals, w.target);
    hide Left, Delivers;
  }

  lemma ValueDelivers(rs: seq<Retval>, x: nat)
    ensures var i := Left(rs, x);
            if i < |rs| then Delivers(rs, rs[..i] + rs[i + 1..], [rs[i]], x, true) else Delivers(rs, rs, [], x, true)
    ensures Delivers(rs, rs, [], x, false)
  {
    var i := Left(rs, x);
    hide Left;
    if i < |rs| { assert FirstOf(rs, x, i); }
  }

  /** A join puts a new block in front and gives way if its target lives; otherwise it returns at once,
      leaves the blocks as they were, and delivers. */
  lemma JoinIs(s: System, t: nat, want: bool)
    requires Scheduled(s) && Enabled(s, Join(t, want))
    ensures var b, n := Waiter(s.sched.run[0].id, t, want, false), JoinExit.Next(s, Join(t, want));
            if Lives(s.sched, t) then
              n == System(Scheduling.Next(s.sched, Yield), [b] + s.joins, s.retvals) && Returning(s, Join(t, want)) == []
            else
              && n.sched == s.sched && n.joins == s.joins && Returning(s, Join(t, want)) == [b]
              && Delivers(s.retvals, n.retvals, GivenBy(s, Join(t, want)), t, want)
  {
    LevelsAre(s.sched);
    LivesIff(s.sched, t);
    var b := Waiter(s.sched.run[0].id, t, want, false);
    hide Scheduled, Scheduling.Next, Live, Lives, Unlinked, Dropped, Delivers, Takes;
    UnlinkNewest(s.joins, b);
    if t !in Live(s.sched) {
      FinishDelivers(s, b);
      NotWanted(s.retvals, b);
    }
  }

  lemma LevelsAre(s: State)
    requires Invariant(s)
    ensures |s.queues| == 3
  {
  }

  lemma NotWanted(rs: seq<Retval>, w: Waiter)
    ensures !w.want ==> Takes(rs, w) == []
  {
  }

  /** Block k is the one of thread x. */
  predicate BlockOf(ws: seq<Waiter>, x: nat, k: nat) {
    k < |ws| && ws[k].joiner == x && forall j :: 0 <= j < k ==> ws[j].joiner != x
  }

  /** A thread that waits gives way again until its block is marked done; then the block goes, and the
      join returns and delivers. */
  lemma PollIs(s: System) returns (k: nat)
    requires Scheduled(s) && Enabled(s, Poll)
    ensures BlockOf(s.joins, s.sched.run[0].id, k)
    ensures var b, n := s.joins[k], JoinExit.Next(s, Poll);
            if b.done then
              && n.sched == s.sched && n.joins == s.joins[..k] + s.joins[k + 1..] && Returning(s, Poll) == [b]
              && Delivers(s.retvals, n.retvals, GivenBy(s, Poll), b.target, b.want)
            else n == s.(sched := Scheduling.Next(s.sched, Yield)) && Returning(s, Poll) == []
  {
    hide Scheduled, Scheduling.Next, Live, Dropped, Delivers, Takes;
    k := JoinExit.Place(s.joins, Me(s));
    FinishDelivers(s, s.joins[k]);
    NotWanted(s.retvals, s.joins[k]);
  }
}
