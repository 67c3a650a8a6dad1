/** The two lists behind join and exit, searched and updated in place as the library does. */
module JoinTable {
  import opened Scheduling
  import opened JoinExit

  class Table {
    var joins: seq<Waiter>        // newest first
    var retvals: seq<Retval>      // newest first

    /** The lists as part of the whole system. */
    ghost function In(sched: State): System
      reads this
    {
      System(sched, joins, retvals)
    }

    constructor ()
      ensures joins == [] && retvals == []
    {
      joins, retvals := [], [];
    }

    /** Mark the first block that waits for thread x. */
    method WakeFirst(x: nat)
      modifies this`joins
      ensures joins == Woken(old(joins), x)
    {
      hide Woken;
      var i := 0;
      while i < |joins|
        invariant 0 <= i <= |joins| && joins == old(joins)
        invariant forall k :: 0 <= k < i ==> joins[k].target != x
      {
        if joins[i].target == x {
          WokenAt(joins, x, i);
          joins := joins[i := joins[i].(done := true)];
          return;
        }
        i := i + 1;
      }
      WokenAt(joins, x, i);
    }

    /** What the executing thread does on exit, before it yields for good. */
    method Leave(value: nat, ghost sched: State, me: nat)
      requires sched.run != [] && sched.run[0].id == me
      modifies this
      ensures In(sched) == Leaving(old(In(sched)), value)
    {
      WakeFirst(me);
      if value != 0 {
        retvals := [Retval(me, value)] + retvals;
      }
    }

    /** Put a block for the executing thread in front, and tell whether it has to wait. */
    method Begin(target: nat, want: bool, sched: State) returns (wait: bool)
      requires |sched.queues| == LEVELS && sched.run != []
      modifies this`joins
      ensures In(sched) == Begun(old(In(sched)), Waiter(sched.run[0].id, target, want, false))
      ensures wait <==> target in Live(sched)
    {
      joins := [Waiter(sched.run[0].id, target, want, false)] + joins;
      wait := FindThread(sched.queues[0], target);
      if !wait {
        wait := FindThread(sched.queues[1], target);
      }
      if !wait {
        wait := FindThread(sched.queues[2], target);
      }
      if !wait {
        wait := FindThread(sched.run, target);
      }
    }

    /** Take out the block of thread me. */
    method Unlink(me: nat)
      modifies this`joins
      ensures joins == Unlinked(old(joins), me)
    {
      var i := 0;
      while i < |joins| && joins[i].joiner != me
        invariant 0 <= i <= |joins| && joins == old(joins)
        invariant forall k :: 0 <= k < i ==> joins[k].joiner != me
      {
        i := i + 1;
      }
      if i < |joins| {
        joins := joins[..i] + joins[i + 1..];
      }
    }

    /** Take out what thread x left, and return it. */
    method TakeValue(x: nat) returns (found: bool, value: nat)
      modifies this`retvals
      ensures retvals == Dropped(old(retvals), x)
      ensures Takes(old(retvals), Waiter(0, x, true, true)) == if found then [Retval(x, value)] else []
    {
      var i := 0;
      found, value := false, 0;
      while i < |retvals|
        invariant 0 <= i <= |retvals| && retvals == old(retvals)
        invariant forall k :: 0 <= k < i ==> retvals[k].id != x
      {
        if retvals[i].id == x {
          found, value := true, retvals[i].value;
          retvals := retvals[..i] + retvals[i + 1..];
          return;
        }
        i := i + 1;
      }
    }

    /** The end of join, once the wait is over. */
    method End(w: Waiter, ghost sched: State) returns (found: bool, value: nat)
      modifies this
      ensures In(sched) == Finish(old(In(sched)), w)
      ensures Takes(old(retvals), w) == if found then [Retval(w.target, value)] else []
    {
      Unlink(w.joiner);
      found, value := false, 0;
      if w.want {
        found, value := TakeValue(w.target);
      }
    }
  }

  /** The first block that waits for x is at i, or there is none. */
  lemma {:induction false} WokenAt(ws: seq<Waiter>, x: nat, i: nat)
    requires i <= |ws| && (i < |ws| ==> ws[i].target == x) && forall k :: 0 <= k < i ==> ws[k].target != x
    ensures Woken(ws, x) == if i < |ws| then ws[i := ws[i].(done := true)] else ws
  {
    if i > 0 {
      WokenAt(ws[1..], x, i - 1);
    }
  }

  /** Walk one list in search of a thread. */
  method FindThread(q: seq<Thread>, target: nat) returns (found: bool)
    ensures found <==> target in multiset(Ids(q))
  {
    var i := 0;
    found := false;
    while i < |q| && !found
      invariant 0 <= i <= |q|
      invariant found <==> exists k :: 0 <= k < i && q[k].id == target
    {
      found := q[i].id == target;
      i := i + 1;
    }
    IdsContain(q, target);
  }

  lemma IdsContain(q: seq<Thread>, x: nat)
    ensures x in Ids(q) <==> exists k :: 0 <= k < |q| && q[k].id == x
  {
    if k :| 0 <= k < |q| && q[k].id == x {
      assert Ids(q)[k] == x;
    }
  }
}
