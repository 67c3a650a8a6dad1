/** The scheduler's linked lists as the program has them: nodes with `next` pointers, three queues
    with head and tail, and the running queue, against the functions of Scheduling. */
module RunQueue {
  import opened RefillSelection
  import opened Scheduling

  /** A list node together with the thread control block it points to. */
  class TcbNode {
    const id: nat
    var priority: nat
    var timeRan: nat
    var status: Status
    var next: TcbNode?

    constructor (id: nat)
      ensures this.id == id && priority == 0 && timeRan == 0 && status == Ready && next == null
    {
      this.id := id;
      priority, timeRan, status, next := 0, 0, Ready, null;
    }

    ghost function Value(): Thread
      reads `priority, `timeRan, `status
    {
      Thread(id, priority, timeRan, status)
    }
  }

  ghost function Threads(q: seq<TcbNode>): (r: seq<Thread>)
    reads q`priority, q`timeRan, q`status
    ensures |r| == |q| && forall i :: 0 <= i < |q| ==> r[i] == q[i].Value()
  {
    if q == [] then [] else [q[0].Value()] + Threads(q[1..])
  }

  // ---------- shapes of lists ----------

  /** From its first node on, q is what the `next` pointers give; q need not end in null. */
  ghost predicate Linked(q: seq<TcbNode>)
    reads q`next
  {
    forall i :: 0 <= i < |q| - 1 ==> q[i].next == q[i + 1]
  }

  ghost predicate IsSegment(h: TcbNode?, t: TcbNode?, q: seq<TcbNode>)
    reads q`next
  {
    if q == [] then h == null else h == q[0] && t == q[|q| - 1] && Linked(q)
  }

  ghost predicate EndsInNull(q: seq<TcbNode>)
    reads q`next
  {
    q == [] || q[|q| - 1].next == null
  }

  ghost predicate IsQueue(h: TcbNode?, t: TcbNode?, q: seq<TcbNode>)
    reads q`next
  {
    IsSegment(h, t, q) && EndsInNull(q) && (q == [] ==> t == null)
  }

  /** No node occurs twice in these lists. */
  ghost predicate NoDup(l: seq<seq<TcbNode>>) {
    forall a, i, b, j :: 0 <= a < |l| && 0 <= i < |l[a]| && 0 <= b < |l| && 0 <= j < |l[b]| && l[a][i] == l[b][j] ==>
      a == b && i == j
  }

  const RUN: nat := 3

  /** The first n nodes of list k moved to the end of the running queue. */
  ghost function Moved(l: seq<seq<TcbNode>>, k: nat, n: nat): (r: seq<seq<TcbNode>>)
    requires |l| == 4 && k < RUN && n <= |l[k]|
    ensures |r| == 4
  {
    l[k := l[k][n..]][RUN := l[RUN] + l[k][..n]]
  }

  lemma MovedNoDup(l: seq<seq<TcbNode>>, k: nat, n: nat)
    requires |l| == 4 && k < RUN && n <= |l[k]| && NoDup(l)
    ensures NoDup(Moved(l, k, n))
  {
    var m := Moved(l, k, n);
    forall a, i, b, j | 0 <= a < 4 && 0 <= i < |m[a]| && 0 <= b < 4 && 0 <= j < |m[b]| && m[a][i] == m[b][j]
      ensures a == b && i == j
    {
      var (a', i') := WasAt(l, k, n, a, i);
      var (b', j') := WasAt(l, k, n, b, j);
      assert l[a'][i'] == l[b'][j'];
    }
  }

  /** Where a node of the moved lists was before. */
  ghost function WasAt(l: seq<seq<TcbNode>>, k: nat, n: nat, a: nat, i: nat): (r: (nat, nat))
    requires |l| == 4 && k < RUN && n <= |l[k]| && a < 4 && i < |Moved(l, k, n)[a]|
    ensures r.0 < 4 && r.1 < |l[r.0]| && l[r.0][r.1] == Moved(l, k, n)[a][i]
  {
    if a == k then (k, i + n)
    else if a == RUN && i >= |l[RUN]| then (k, i - |l[RUN]|)
    else (a, i)
  }

  lemma Apart(l: seq<seq<TcbNode>>, k: nat)
    requires |l| == 4 && k < 4 && NoDup(l)
    ensures forall a, i :: 0 <= a < 4 && a != k && 0 <= i < |l[a]| ==> l[a][i] !in l[k]
    ensures forall i, j :: 0 <= i < j < |l[k]| ==> l[k][i] != l[k][j]
  {
  }

  /** m is l after i nodes of list k were moved. */
  ghost predicate Loading(l: seq<seq<TcbNode>>, k: nat, i: nat, m: seq<seq<TcbNode>>) {
    |l| == 4 && k < RUN && i <= |l[k]| && m == Moved(l, k, i)
  }

  lemma MovedNone(l: seq<seq<TcbNode>>, k: nat)
    requires |l| == 4 && k < RUN
    ensures Loading(l, k, 0, l)
  {
    assert l[RUN] + l[k][..0] == l[RUN];
  }

  lemma LoadingStep(l: seq<seq<TcbNode>>, k: nat, i: nat, m: seq<seq<TcbNode>>)
    requires Loading(l, k, i, m) && i < |l[k]|
    ensures |m| == 4 && m[k] != [] && m[k][0] == l[k][i] && m[RUN] == l[RUN] + l[k][..i]
    ensures Loading(l, k, i + 1, Moved(m, k, 1))
  {
    assert m[k][1..] == l[k][i + 1..];
    assert m[RUN] + m[k][..1] == l[RUN] + l[k][..i + 1];
  }

  lemma LoadingIs(l: seq<seq<TcbNode>>, k: nat, i: nat, m: seq<seq<TcbNode>>)
    requires Loading(l, k, i, m)
    ensures |l| == 4 && k < RUN && i <= |l[k]| && m == Moved(l, k, i)
  {
  }

  class Lists {
    var head: seq<TcbNode?>       // the heads of the three queues, by priority
    var tail: seq<TcbNode?>
    var runHead: TcbNode?
    var runTail: TcbNode?
    var threadCount: nat          // the next thread id
    ghost var lists: seq<seq<TcbNode>>  // the three queues and the running queue
    ghost var nodes: set<TcbNode>       // all nodes made so far

    /** The pointers give the lists l, except that the running queue may run on behind its tail. */
    ghost predicate Gives(l: seq<seq<TcbNode>>)
      requires |l| == 4
      reads `head, `tail, `runHead, `runTail, l[0]`next, l[1]`next, l[2]`next, l[RUN]`next
    {
      && |head| == RUN && |tail| == RUN
      && IsQueue(head[0], tail[0], l[0]) && IsQueue(head[1], tail[1], l[1]) && IsQueue(head[2], tail[2], l[2])
      && IsSegment(runHead, runTail, l[RUN])
    }

    ghost predicate Valid()
      reads *
    {
      |lists| == 4 && Gives(lists) && NoDup(lists) && EndsInNull(lists[RUN]) && Within(lists, nodes)
    }

    /** The scheduler's state on values, for the lists l. */
    ghost function ViewOf(l: seq<seq<TcbNode>>): (s: State)
      requires |l| == 4
      reads `threadCount, l[0]`priority, l[0]`timeRan, l[0]`status, l[1]`priority, l[1]`timeRan, l[1]`status
      reads l[2]`priority, l[2]`timeRan, l[2]`status, l[RUN]`priority, l[RUN]`timeRan, l[RUN]`status
      ensures |s.queues| == LEVELS
    {
      State([Threads(l[0]), Threads(l[1]), Threads(l[2])], Threads(l[RUN]), threadCount)
    }

    ghost function View(): (s: State)
      requires |lists| == 4
      reads this, lists[0], lists[1], lists[2], lists[RUN]
      ensures |s.queues| == LEVELS
    {
      ViewOf(lists)
    }

    // ---------- filling the running queue ----------

    /** Put h, the first node of list k, behind the running queue. */
    method LinkBehind(h: TcbNode, ghost l: seq<seq<TcbNode>>)
      requires |l| == 4 && Gives(l) && NoDup(l) && h !in l[RUN]
      modifies `runHead, `runTail, l[RUN]`next
      ensures Gives(l[RUN := l[RUN] + [h]])
      ensures runTail == h && h.next == old(h.next)
    {
      hide NoDup;
      Apart(l, RUN);
      if runHead == null {
        runHead := h;
        runTail := h;
      } else {
        runTail.next := h;
        runTail := h;
      }
    }

    /** Step the head of queue k to the next node. */
    method DropHead(k: nat, ghost l: seq<seq<TcbNode>>)
      requires |l| == 4 && Gives(l) && k < RUN && l[k] != []
      modifies `head, `tail
      ensures Gives(l[k := l[k][1..]]) && |head| == RUN && head[k] == l[k][0].next
    {
      head := head[k := head[k].next];
      if head[k] == null {
        tail := tail[k := null];
      }
    }

    /** One round of a loading loop of `createRunningQueue`. */
    method MoveOne(k: nat, ghost l: seq<seq<TcbNode>>)
      requires |l| == 4 && Gives(l) && NoDup(l) && k < RUN && l[k] != []
      modifies `head, `tail, `runHead, `runTail, l[RUN]`next
      ensures Gives(Moved(l, k, 1)) && NoDup(Moved(l, k, 1)) && |head| == RUN
      ensures runTail == l[k][0] && runTail.next == head[k]
    {
      MovedNoDup(l, k, 1);
      assert l[k][..1] == [l[k][0]];
      assert head[k] == l[k][0] && l[k][0] !in l[RUN];
      hide NoDup, Gives;
      LinkBehind(head[k], l);
      DropHead(k, l[RUN := l[RUN] + [l[k][0]]]);
      assert Moved(l, k, 1) == l[RUN := l[RUN] + [l[k][0]]][k := l[k][1..]];
    }

    /** A loading loop of `createRunningQueue`: n threads from the front of queue k. */
    method Load(k: nat, n: nat, ghost l: seq<seq<TcbNode>>)
      requires |l| == 4 && Gives(l) && NoDup(l) && k < RUN && 0 < n <= |l[k]|
      modifies `head, `tail, `runHead, `runTail, l[RUN]`next, l[k]`next
      ensures Gives(Moved(l, k, n)) && NoDup(Moved(l, k, n))
      ensures |head| == RUN && runTail == l[k][n - 1] && runTail.next == head[k]
    {
      hide Gives, NoDup, Moved, Loading;
      ghost var m := l;
      var p: nat := n;
      MovedNone(l, k);
      while p > 0
        invariant 0 <= p <= n && Loading(l, k, n - p, m)
        invariant |m| == 4 && Gives(m) && NoDup(m)
        invariant p < n ==> |head| == RUN && runTail == l[k][n - p - 1] && runTail.next == head[k]
      {
        LoadingStep(l, k, n - p, m);
        MoveOne(k, m);
        p := p - 1;
        m := Moved(m, k, 1);
      }
      LoadingIs(l, k, n, m);
    }

    // ---------- choosing how many ----------

    /** Walking the nodes q, t has passed i of them. */
    ghost predicate Walks(t: TcbNode?, q: seq<TcbNode>, i: nat) {
      i <= |q| && t == if i < |q| then q[i] else null
    }

    /** The loop that counts up to two threads of level 1. */
    method TallyTwo(from: TcbNode?, ghost q: seq<TcbNode>, sofar: nat) returns (t: TcbNode?, n: nat, count: nat)
      requires Walks(from, q, 0) && Linked(q) && EndsInNull(q)
      ensures n == Min(|q|, 2) && count == sofar + 50 * n && Walks(t, q, n)
    {
      t, n, count := from, 0, sofar;
      while t != null
        invariant Walks(t, q, n) && n < 2 && count == sofar + 50 * n
        decreases |q| - n
      {
        count := count + 50;
        n := n + 1;
        t := t.next;
        if n == 2 {
          break;
        }
      }
    }

    /** The loop that counts as many threads of level 0 as fit. */
    method TallyLevel0(from: TcbNode?, ghost q: seq<TcbNode>, sofar: nat) returns (n: nat)
      requires Walks(from, q, 0) && Linked(q) && EndsInNull(q) && sofar <= MAX && sofar % 25 == 0
      ensures n == Fitting(|q|, sofar, 25)
    {
      var t, count := from, sofar;
      n := 0;
      while t != null && count < MAX
        invariant Walks(t, q, n) && count == sofar + 25 * n && count <= MAX
        decreases |q| - n
      {
        count := count + 25;
        n := n + 1;
        t := t.next;
      }
      FittingIs(|q|, sofar, 25, n);
    }

    /** The counting half of `createRunningQueue`, up to its test for room left over: the counts,
        and the next thread of levels 1 and 2 to look at. */
    method TallyQuota(ghost l: seq<seq<TcbNode>>) returns (p: Pick, t1: TcbNode?, t2: TcbNode?)
      requires |l| == 4 && Gives(l)
      ensures p == FirstPick(|l[0]|, |l[1]|, |l[2]|)
      ensures p.p1 <= |l[1]| && p.p2 <= |l[2]| && Walks(t1, l[1], p.p1) && Walks(t2, l[2], p.p2)
    {
      hide Fitting, Linked, EndsInNull;
      QueuesEnd(l);
      var t0 := head[0];
      t1, t2 := head[1], head[2];
      var count, p0, p1, p2 := 0, 0, 0, 0;
      if t2 != null {
        count := count + 100;
        p2 := p2 + 1;
        SecondOf(l[2]);
        t2 := t2.next;
      }
      t1, p1, count := TallyTwo(t1, l[1], count);
      p0 := TallyLevel0(t0, l[0], count);
      p := Pick(p0, p1, p2);
    }

    lemma SecondOf(q: seq<TcbNode>)
      requires q != [] && Linked(q) && EndsInNull(q)
      ensures Walks(q[0].next, q, 1)
    {
    }

    /** A loop that fills the room left over: it steps past every thread, also one that does not fit. */
    method TallyRest(from: TcbNode?, ghost q: seq<TcbNode>, ghost i: nat, quantum: nat, sofar: nat)
      returns (count: nat, extra: nat)
      requires Walks(from, q, i) && Linked(q) && EndsInNull(q)
      requires sofar <= MAX && sofar % 25 == 0 && (quantum == 50 || quantum == 100)
      ensures extra == Fitting(|q| - i, sofar, quantum) && count == sofar + quantum * extra
    {
      var t := from;
      count, extra := sofar, 0;
      ghost var j := i;
      while t != null && count < MAX
        invariant Walks(t, q, j) && i + extra <= j
        invariant count == sofar + quantum * extra && count <= MAX
        invariant i + extra < j ==> count + quantum > MAX
        decreases |q| - j
      {
        if count + quantum <= MAX {
          count := count + quantum;
          extra := extra + 1;
        }
        t := t.next;
        j := j + 1;
      }
      FittingIs(|q| - i, sofar, quantum, extra);
    }

    /** The queues are linked and end in null. */
    lemma QueuesEnd(l: seq<seq<TcbNode>>)
      requires |l| == 4 && Gives(l)
      ensures |head| == RUN
      ensures forall k :: 0 <= k < RUN ==> Linked(l[k]) && EndsInNull(l[k]) && (head[k] == null <==> l[k] == [])
    {
      hide Linked, EndsInNull, IsQueue;
      QueueEnds(head[0], tail[0], l[0]);
      QueueEnds(head[1], tail[1], l[1]);
      QueueEnds(head[2], tail[2], l[2]);
    }

    static lemma QueueEnds(h: TcbNode?, t: TcbNode?, q: seq<TcbNode>)
      requires IsQueue(h, t, q)
      ensures Linked(q) && EndsInNull(q) && (h == null <==> q == [])
    {
    }

    method Tally(ghost l: seq<seq<TcbNode>>) returns (p: Pick)
      requires |l| == 4 && Gives(l)
      ensures p == Select(|l[0]|, |l[1]|, |l[2]|)
    {
      hide FirstPick, Fitting, Walks, Gives, Linked, EndsInNull;
      QueuesEnd(l);
      var b, t1, t2 := TallyQuota(l);
      var count, e1, e2 := b.Total(), 0, 0;
      if count < MAX {
        count, e1 := TallyRest(t1, l[1], b.p1, 50, count);
        count, e2 := TallyRest(t2, l[2], b.p2, 100, count);
      } else {
        FittingIs(|l[1]| - b.p1, MAX, 50, 0);
        FittingIs(|l[2]| - b.p2, MAX, 100, 0);
      }
      p := Pick(b.p0, b.p1 + e1, b.p2 + e2);
    }
  
    // ---------- the whole refill ----------

    /** The loading half of `createRunningQueue`. */
    method LoadLevels(p: Pick, ghost l: seq<seq<TcbNode>>)
      requires |l| == 4 && Gives(l) && NoDup(l) && l[RUN] == [] && Fits(l, p)
      modifies `head, `tail, `runHead, `runTail, l[0]`next, l[1]`next, l[2]`next
      ensures Gives(Filled(l, p)) && NoDup(Filled(l, p))
      ensures p != Pick(0, 0, 0) ==> |head| == RUN && runTail != null && runTail.next == head[LastLevel(p)]
    {
      hide Gives, NoDup, Moved, Filled;
      FilledSteps(l, p);
      ghost var m0 := Moved(l, 0, p.p0);
      ghost var m1 := Moved(m0, 1, p.p1);
      if p.p0 > 0 {
        Load(0, p.p0, l);
      }
      if p.p1 > 0 {
        Load(1, p.p1, m0);
      }
      if p.p2 > 0 {
        Load(2, p.p2, m1);
      }
    }

    /** Fill the empty running queue.  Its nodes are exactly the fronts of the three queues, in
        order of priority; the queues keep the rest; and no node is in two lists.  But the last
        node taken still points into its old queue, so the running queue ends at its tail exactly
        when the last level drawn from is drained. */
    method CreateRunningQueue(ghost l: seq<seq<TcbNode>>) returns (p: Pick, emptyRunningQueue: bool)
      requires |l| == 4 && Gives(l) && NoDup(l) && l[RUN] == []
      modifies `head, `tail, `runHead, `runTail, l[0]`next, l[1]`next, l[2]`next
      ensures p == Select(|l[0]|, |l[1]|, |l[2]|) && Fits(l, p)
      ensures Gives(Filled(l, p)) && NoDup(Filled(l, p))
      ensures emptyRunningQueue == (p == Pick(0, 0, 0))
      ensures EndsInNull(Filled(l, p)[RUN]) <==> p == Pick(0, 0, 0) || Filled(l, p)[LastLevel(p)] == []
      ensures p != Pick(0, 0, 0) ==> |head| == RUN && runTail != null && runTail.next == head[LastLevel(p)]
    {
      hide NoDup, Select, Gives, Filled, EndsInNull, Linked;
      QueuesEnd(l);
      emptyRunningQueue := head[0] == null && head[1] == null && head[2] == null;
      EmptyChoice(|l[0]|, |l[1]|, |l[2]|);
      p := Tally(l);
      LoadLevels(p, l);
      TailIsCutIff(p, l);
    }

    lemma TailIsCutIff(p: Pick, l: seq<seq<TcbNode>>)
      requires Fits(l, p) && l[RUN] == [] && Gives(Filled(l, p))
      requires p != Pick(0, 0, 0) ==> |head| == RUN && runTail != null && runTail.next == head[LastLevel(p)]
      ensures EndsInNull(Filled(l, p)[RUN]) <==> p == Pick(0, 0, 0) || Filled(l, p)[LastLevel(p)] == []
    {
      var f := Filled(l, p);
      assert IsQueue(head[LastLevel(p)], tail[LastLevel(p)], f[LastLevel(p)]);
      assert f[RUN] == [] <==> p == Pick(0, 0, 0);
    }

    // ---------- the scheduler ----------

    /** Put a node that is in no list at the end of a queue with head h and tail t. */
    static method LinkLast(h: TcbNode?, t: TcbNode?, ptr: TcbNode, ghost q: seq<TcbNode>) returns (h': TcbNode)
      requires IsQueue(h, t, q) && ptr !in q && forall i, j :: 0 <= i < j < |q| ==> q[i] != q[j]
      modifies ptr`next, q`next
      ensures IsQueue(h', ptr, q + [ptr])
    {
      if t == null {
        h' := ptr;
      } else {
        h' := h;
        t.next := ptr;
      }
      ptr.next := null;
    }

    /** Put a node that is in no list at the end of queue k. */
    method Append(k: nat, ptr: TcbNode, ghost l: seq<seq<TcbNode>>)
      requires |l| == 4 && Gives(l) && NoDup(l) && k < RUN
      requires forall a :: 0 <= a < 4 ==> ptr !in l[a]
      modifies `head, `tail, ptr`next, l[k]`next
      ensures Gives(l[k := l[k] + [ptr]])
      ensures forall i :: 0 <= i < |l[RUN]| ==> l[RUN][i].next == old(l[RUN][i].next)
    {
      hide NoDup, IsQueue, IsSegment, EndsInNull;
      Apart(l, k);
      var h := LinkLast(head[k], tail[k], ptr, l[k]);
      head := head[k := h];
      tail := tail[k := ptr];
    }

    /** Take the head off the running queue. */
    method Unlink(ghost l: seq<seq<TcbNode>>) returns (ptr: TcbNode)
      requires |l| == 4 && Gives(l) && l[RUN] != [] && EndsInNull(l[RUN])
      modifies `runHead
      ensures ptr == l[RUN][0] && Gives(l[RUN := l[RUN][1..]]) && EndsInNull(l[RUN][1..])
      ensures runHead == null <==> l[RUN][1..] == []
    {
      ptr := runHead;
      runHead := ptr.next;
    }

    /** Add the quantum to the time that the thread ran, age it, and demote it after a whole slice. */
    method Account(ptr: TcbNode, wholeSlice: bool)
      requires ptr.status != Exited
      modifies ptr`timeRan, ptr`priority, ptr`status
      ensures ptr.Value() == Returned(old(ptr.Value()), wholeSlice)
      ensures old(ptr.priority) < LEVELS ==> ptr.priority < LEVELS
    {
      var agingFlag := false;
      if ptr.priority == 2 {
        ptr.timeRan := ptr.timeRan + 100;
      } else if ptr.priority == 1 {
        ptr.timeRan := ptr.timeRan + 50;
      } else {
        ptr.timeRan := ptr.timeRan + 25;
      }
      if ptr.timeRan >= AGE_LIMIT {
        ptr.priority := 0;
        ptr.timeRan := 0;
        agingFlag := true;
      }
      ptr.status := Ready;
      if wholeSlice && !agingFlag {
        if ptr.priority < 2 {
          ptr.priority := ptr.priority + 1;
        }
      }
    }

    /** The lists after the head of the running queue left it, for good or to the end of queue k. */
    static ghost function Retired(l: seq<seq<TcbNode>>, exited: bool, k: nat): (r: seq<seq<TcbNode>>)
      requires |l| == 4 && l[RUN] != [] && k < RUN
      ensures |r| == 4
    {
      var rest := l[RUN := l[RUN][1..]];
      if exited then rest else rest[k := rest[k] + [l[RUN][0]]]
    }

    method RetireHead(wholeSlice: bool, ghost l: seq<seq<TcbNode>>) returns (exited: bool, k: nat)
      requires |l| == 4 && Gives(l) && NoDup(l) && EndsInNull(l[RUN]) && l[RUN] != []
      requires l[RUN][0].priority < LEVELS
      modifies `head, `tail, `runHead, l[RUN][0], l[0]`next, l[1]`next, l[2]`next
      ensures exited == old(l[RUN][0].status == Exited)
      ensures k < RUN && (!exited ==> l[RUN][0].Value() == Returned(old(l[RUN][0].Value()), wholeSlice) && k == l[RUN][0].priority)
      ensures var r := Retired(l, exited, k); Gives(r) && NoDup(r) && EndsInNull(r[RUN])
      ensures runHead == null <==> Retired(l, exited, k)[RUN] == []
    {
      hide NoDup, Returned;
      HeadIsAlone(l);
      ghost var rest := l[RUN := l[RUN][1..]];
      var ptr := Unlink(l);
      exited, k := ptr.status == Exited, 0;
      if ptr.status != Exited {
        Account(ptr, wholeSlice);
        assert Gives(rest) && EndsInNull(rest[RUN]);
        hide Gives, EndsInNull;
        k := ptr.priority;
        AppendedNoDup(rest, k, ptr);
        Append(k, ptr, rest);
      }
    }

    /** If only the head's node changed, as Account changes it, since the lists stood for s. */
    lemma RetiredView(s: State, l: seq<seq<TcbNode>>, exited: bool, k: nat, wholeSlice: bool)
      requires |l| == 4 && l[RUN] != [] && Sizes(s, l) && s.run[0].priority < LEVELS
      requires exited == (s.run[0].status == Exited) && k < RUN && threadCount == s.nextId
      requires forall a, i :: 0 <= a < 4 && 0 <= i < |l[a]| && (a != RUN || i > 0) ==> l[a][i].Value() == ListOf(s, a)[i]
      requires !exited ==> l[RUN][0].Value() == Returned(s.run[0], wholeSlice) && k == l[RUN][0].priority
      ensures ViewOf(Retired(l, exited, k)) == Scheduling.Retire(s, wholeSlice)
    {
      hide Returned, Threads;
      assert Threads(l[RUN][1..]) == s.run[1..];
      assert forall a :: 0 <= a < RUN ==> Threads(l[a]) == s.queues[a];
      if !exited {
        assert Threads(l[k] + [l[RUN][0]]) == Threads(l[k]) + [l[RUN][0].Value()];
      }
    }

    lemma NodesOfView(l: seq<seq<TcbNode>>)
      requires |l| == 4
      ensures Sizes(ViewOf(l), l)
      ensures forall a, i :: 0 <= a < 4 && 0 <= i < |l[a]| ==> l[a][i].Value() == ListOf(ViewOf(l), a)[i]
    {
    }

    lemma HeadOfView(s: State, l: seq<seq<TcbNode>>)
      requires |l| == 4 && l[RUN] != [] && s == ViewOf(l)
      ensures s.run != [] && s.run[0] == l[RUN][0].Value()
    {
    }

    /** The head of the running queue leaves it: for good if it exited, else to the end of its queue. */
    method Retire(wholeSlice: bool)
      requires Valid() && View().run != [] && View().run[0].priority < LEVELS
      modifies this, nodes
      ensures Valid() && nodes == old(nodes) && (runHead == null <==> lists[RUN] == [])
      ensures View() == Scheduling.Retire(old(View()), wholeSlice)
    {
      hide NoDup, Gives, EndsInNull, Threads, Returned, ListOf, Sizes, Scheduling.Retire;
      ghost var l, s := lists, View();
      NodesOfView(l);
      HeadDiffers(l);
      HeadOfView(s, l);
      var exited, k := RetireHead(wholeSlice, l);
      RetiredWithin(l, exited, k, nodes);
      RetiredView(s, l, exited, k, wholeSlice);
      lists := Retired(l, exited, k);
    }

    static lemma ThreadsOfParts(q: seq<TcbNode>, n: nat)
      requires n <= |q|
      ensures Threads(q[n..]) == Threads(q)[n..] && Threads(q[..n]) == Threads(q)[..n]
    {
      hide Threads;
    }

    static lemma ThreadsOfSum(a: seq<TcbNode>, b: seq<TcbNode>)
      ensures Threads(a + b) == Threads(a) + Threads(b)
    {
      hide Threads;
    }

    lemma FilledView(l: seq<seq<TcbNode>>, p: Pick)
      requires Fits(l, p) && p == Select(|l[0]|, |l[1]|, |l[2]|)
      ensures ViewOf(Filled(l, p)) == Scheduling.Refill(ViewOf(l))
    {
      hide Select, Threads;
      ThreadsOfParts(l[0], p.p0);
      ThreadsOfParts(l[1], p.p1);
      ThreadsOfParts(l[2], p.p2);
      ThreadsOfSum(l[RUN], l[0][..p.p0]);
      ThreadsOfSum(l[RUN] + l[0][..p.p0], l[1][..p.p1]);
      ThreadsOfSum(l[RUN] + l[0][..p.p0] + l[1][..p.p1], l[2][..p.p2]);
    }

    /** `createRunningQueue`, followed by the declared repair: the chain is cut at its tail. */
    method Refill()
      requires Valid() && lists[RUN] == []
      modifies this, nodes
      ensures Valid() && nodes == old(nodes)
      ensures View() == Scheduling.Refill(old(View()))
    {
      hide NoDup, Threads, Select, Filled, Scheduling.Refill, ViewOf, Gives, EndsInNull;
      assert ViewOf(lists) == View();
      ghost var l := lists;
      var p, _ := CreateRunningQueue(l);
      assert ViewOf(l) == old(ViewOf(l));
      FilledView(l, p);
      FilledWithin(l, p, nodes);
      lists := Filled(l, p);
      CutTail(lists);
      assert ViewOf(lists) == View();
    }

    /** End the running queue at its tail. */
    method CutTail(ghost l: seq<seq<TcbNode>>)
      requires |l| == 4 && Gives(l) && NoDup(l)
      modifies l[RUN]`next
      ensures Gives(l) && EndsInNull(l[RUN])
    {
      hide NoDup;
      Apart(l, RUN);
      if runHead != null {
        runTail.next := null;
      }
    }

    /** The thread at the head of the running queue gets the processor. */
    method Dispatch()
      requires Valid()
      modifies nodes
      ensures Valid() && View() == Scheduling.Dispatch(old(View()))
    {
      hide NoDup, Threads;
      ghost var l, s := lists, View();
      NodesOfView(l);
      if runHead != null {
        HeadDiffers(l);
        runHead.status := Running;
        assert Threads(l[RUN]) == Scheduling.Dispatch(s).run;
        assert forall a :: 0 <= a < RUN ==> Threads(l[a]) == s.queues[a];
      }
    }

    /** One call of the scheduler by the thread at the head of the running queue. */
    method Schedule(wholeSlice: bool)
      requires Valid() && View().run != [] && View().run[0].priority < LEVELS
      modifies this, nodes
      ensures Valid() && nodes == old(nodes)
      ensures View() == Scheduling.Schedule(old(View()), wholeSlice)
    {
      hide NoDup, Gives, EndsInNull, Within, Threads, Scheduling.Retire, Scheduling.Refill, Scheduling.Dispatch;
      Retire(wholeSlice);
      if runHead == null {
        Refill();
      }
      Dispatch();
    }

    // ---------- creating, yielding, exiting ----------

    constructor ()
      ensures Valid() && nodes == {} && View() == State([[], [], []], [], 2)
    {
      head := [null, null, null];
      tail := [null, null, null];
      runHead, runTail, threadCount := null, null, 2;
      lists, nodes := [[], [], [], []], {};
    }

    /** A new node at the end of queue 0. */
    method EnqueueNew(node: TcbNode)
      requires Valid() && node !in nodes && node.Value() == Thread(node.id, 0, 0, Ready)
      modifies this, nodes, node
      ensures Valid() && nodes == old(nodes) + {node}
      ensures View() == Enqueue(old(View()), Thread(node.id, 0, 0, Ready))
    {
      hide NoDup, Gives, Threads;
      ghost var l, s := lists, View();
      Outside(l, nodes, node);
      AppendedNoDup(l, 0, node);
      Append(0, node, l);
      lists := l[0 := l[0] + [node]];
      nodes := nodes + {node};
      assert Threads(lists[0]) == s.queues[0] + [Thread(node.id, 0, 0, Ready)];
    }

    /** A node for a new thread, in no list yet. */
    method NewNode(id: nat) returns (node: TcbNode)
      requires Valid()
      ensures Valid() && View() == old(View()) && fresh(node) && node !in nodes
      ensures node.id == id && node.Value() == Thread(id, 0, 0, Ready)
    {
      hide NoDup, Gives, EndsInNull, Threads, Within;
      node := new TcbNode(id);
    }

    /** The queue part of `my_pthread_create`: a node for the new thread at the end of queue 0. */
    method Admit() returns (id: nat)
      requires Valid()
      modifies this, nodes
      ensures Valid() && fresh(nodes - old(nodes)) && old(nodes) <= nodes
      ensures id == old(threadCount) && View() == Scheduling.Admit(old(View()))
    {
      hide NoDup, Gives, EndsInNull, Threads, Within;
      id := threadCount;
      var node := NewNode(id);
      EnqueueNew(node);
      CountThread();
    }

    /** The next thread id. */
    method CountThread()
      requires Valid()
      modifies `threadCount
      ensures Valid() && View() == old(View()).(nextId := old(threadCount) + 1)
    {
      hide NoDup, Gives, EndsInNull, Threads, Within;
      threadCount := threadCount + 1;
    }

    /** Put a node that is in no list at the front of queue 0.  The tail of an empty queue is set too;
        the program leaves it, and reads it only after the refill has drained the queue. */
    method LinkFront(node: TcbNode, ghost l: seq<seq<TcbNode>>)
      requires |l| == 4 && Gives(l)
      requires forall a :: 0 <= a < 4 ==> node !in l[a]
      modifies `head, `tail, node`next
      ensures Gives(l[0 := [node] + l[0]])
    {
      node.next := head[0];
      if head[0] == null {
        tail := tail[0 := node];
      }
      head := head[0 := node];
    }

    method Prepend(node: TcbNode)
      requires Valid() && node !in nodes && node.Value() == Thread(node.id, 0, 0, Ready)
      modifies this, node
      ensures Valid() && nodes == old(nodes) + {node}
      ensures var s := old(View()); View() == s.(queues := s.queues[0 := [Thread(node.id, 0, 0, Ready)] + s.queues[0]])
    {
      hide NoDup, Gives, Threads;
      ghost var l, s := lists, View();
      Outside(l, nodes, node);
      PrependedNoDup(l, node);
      LinkFront(node, l);
      lists := l[0 := [node] + l[0]];
      nodes := nodes + {node};
      assert Threads(lists[0]) == [Thread(node.id, 0, 0, Ready)] + s.queues[0];
    }

    /** The first call of the scheduler, by the main thread, which is not in any list yet. */
    method FirstSchedule()
      requires Valid() && View().run == []
      modifies this, nodes
      ensures Valid() && fresh(nodes - old(nodes)) && old(nodes) <= nodes
      ensures View() == Scheduling.FirstSchedule(old(View()))
    {
      hide NoDup, Gives, EndsInNull, Within, Threads, Scheduling.Refill, Scheduling.Dispatch;
      var node := NewNode(1);
      Prepend(node);
      Refill();
      Dispatch();
    }

    /** What the executing thread does next. */
    method Step(e: Event)
      requires Valid() && View().run != [] && View().run[0].priority < LEVELS
      modifies this, nodes
      ensures Valid() && fresh(nodes - old(nodes)) && old(nodes) <= nodes
      ensures View() == Next(old(View()), e)
    {
      hide NoDup, Gives, EndsInNull, Within, Threads, Scheduling.Schedule;
      match e
      case Create =>
        var _ := Admit();
        Schedule(false);
      case Yield => Schedule(false);
      case Timer => Schedule(true);
      case Exit =>
        MarkExited();
        Schedule(false);
    }

    /** `my_pthread_exit` marks the executing thread. */
    method MarkExited()
      requires Valid() && View().run != []
      modifies nodes
      ensures Valid()
      ensures var s := old(View()); View() == s.(run := s.run[0 := s.run[0].(status := Exited)])
    {
      hide NoDup, Threads;
      ghost var l, s := lists, View();
      HeadDiffers(l);
      runHead.status := Exited;
      assert Threads(l[RUN]) == s.run[0 := s.run[0].(status := Exited)];
      assert forall a :: 0 <= a < RUN ==> Threads(l[a]) == s.queues[a];
    }
  }

  lemma Outside(l: seq<seq<TcbNode>>, nodes: set<TcbNode>, node: TcbNode)
    requires Within(l, nodes) && node !in nodes
    ensures forall a :: 0 <= a < |l| ==> node !in l[a]
  {
  }

  lemma PrependedNoDup(l: seq<seq<TcbNode>>, node: TcbNode)
    requires |l| == 4 && NoDup(l) && forall a :: 0 <= a < 4 ==> node !in l[a]
    ensures NoDup(l[0 := [node] + l[0]])
  {
    var m := l[0 := [node] + l[0]];
    forall a, i, b, j | 0 <= a < 4 && 0 <= i < |m[a]| && 0 <= b < 4 && 0 <= j < |m[b]| && m[a][i] == m[b][j]
      ensures a == b && i == j
    {
      if (a != 0 || i > 0) && (b != 0 || j > 0) {
        assert l[a][if a == 0 then i - 1 else i] == l[b][if b == 0 then j - 1 else j];
      }
    }
  }

  lemma FilledWithin(l: seq<seq<TcbNode>>, p: Pick, nodes: set<TcbNode>)
    requires Fits(l, p) && Within(l, nodes)
    ensures Within(Filled(l, p), nodes)
  {
  }

  /** The threads in list a of s. */
  ghost function ListOf(s: State, a: nat): seq<Thread>
    requires |s.queues| == LEVELS && a < 4
  {
    if a == RUN then s.run else s.queues[a]
  }

  ghost predicate Sizes(s: State, l: seq<seq<TcbNode>>)
    requires |l| == 4
  {
    |s.queues| == LEVELS && forall a :: 0 <= a < 4 ==> |ListOf(s, a)| == |l[a]|
  }

  lemma HeadDiffers(l: seq<seq<TcbNode>>)
    requires |l| == 4 && NoDup(l) && l[RUN] != []
    ensures forall a, i :: 0 <= a < 4 && 0 <= i < |l[a]| && (a != RUN || i > 0) ==> l[a][i] != l[RUN][0]
  {
  }

  lemma RetiredWithin(l: seq<seq<TcbNode>>, exited: bool, k: nat, nodes: set<TcbNode>)
    requires |l| == 4 && l[RUN] != [] && k < RUN && Within(l, nodes)
    ensures Within(Lists.Retired(l, exited, k), nodes)
  {
  }

  /** Every node of the lists l is in a set. */
  ghost predicate Within(l: seq<seq<TcbNode>>, nodes: set<TcbNode>) {
    forall k, i :: 0 <= k < |l| && 0 <= i < |l[k]| ==> l[k][i] in nodes
  }

  lemma HeadIsAlone(l: seq<seq<TcbNode>>)
    requires |l| == 4 && NoDup(l) && l[RUN] != []
    ensures var rest := l[RUN := l[RUN][1..]];
            NoDup(rest) && forall a :: 0 <= a < 4 ==> l[RUN][0] !in rest[a]
  {
    var rest := l[RUN := l[RUN][1..]];
    forall a, i | 0 <= a < 4 && 0 <= i < |rest[a]| ensures rest[a][i] != l[RUN][0] {
      assert rest[a][i] == l[a][if a == RUN then i + 1 else i];
    }
    forall a, i, b, j | 0 <= a < 4 && 0 <= i < |rest[a]| && 0 <= b < 4 && 0 <= j < |rest[b]| && rest[a][i] == rest[b][j]
      ensures a == b && i == j
    {
      assert rest[a][i] == l[a][if a == RUN then i + 1 else i];
      assert rest[b][j] == l[b][if b == RUN then j + 1 else j];
    }
  }

  lemma AppendedNoDup(l: seq<seq<TcbNode>>, k: nat, ptr: TcbNode)
    requires |l| == 4 && NoDup(l) && k < RUN && forall a :: 0 <= a < 4 ==> ptr !in l[a]
    ensures NoDup(l[k := l[k] + [ptr]])
  {
    var m := l[k := l[k] + [ptr]];
    forall a, i, b, j | 0 <= a < 4 && 0 <= i < |m[a]| && 0 <= b < 4 && 0 <= j < |m[b]| && m[a][i] == m[b][j]
      ensures a == b && i == j
    {
      if i < |l[a]| && j < |l[b]| {
        assert l[a][i] == l[b][j];
      }
    }
  }

  predicate Fits(l: seq<seq<TcbNode>>, p: Pick) {
    |l| == 4 && p.p0 <= |l[0]| && p.p1 <= |l[1]| && p.p2 <= |l[2]|
  }

  ghost function Filled(l: seq<seq<TcbNode>>, p: Pick): (r: seq<seq<TcbNode>>)
    requires Fits(l, p)
    ensures |r| == 4
  {
    [l[0][p.p0..], l[1][p.p1..], l[2][p.p2..], l[RUN] + l[0][..p.p0] + l[1][..p.p1] + l[2][..p.p2]]
  }

  /** The last level that a choice draws from. */
  function LastLevel(p: Pick): (k: nat)
    ensures k < RUN
  {
    if p.p2 > 0 then 2 else if p.p1 > 0 then 1 else 0
  }

  lemma FilledSteps(l: seq<seq<TcbNode>>, p: Pick)
    requires Fits(l, p)
    ensures var m0 := Moved(l, 0, p.p0);
            m0[1] == l[1] && m0[2] == l[2] && m0[RUN] == l[RUN] + l[0][..p.p0] && (p.p0 == 0 ==> m0 == l) &&
            var m1 := Moved(m0, 1, p.p1);
            m1[2] == l[2] && m1[RUN] == l[RUN] + l[0][..p.p0] + l[1][..p.p1] && (p.p1 == 0 ==> m1 == m0) &&
            Moved(m1, 2, p.p2) == Filled(l, p) && (p.p2 == 0 ==> m1 == Filled(l, p))
  {
    var m0 := Moved(l, 0, p.p0);
    var m1 := Moved(m0, 1, p.p1);
    MovedNone(l, 0);
    MovedNone(m0, 1);
    MovedNone(m1, 2);
    assert Moved(m1, 2, p.p2) == Filled(l, p);
  }

  lemma EmptyChoice(n0: nat, n1: nat, n2: nat)
    ensures Select(n0, n1, n2) == Pick(0, 0, 0) <==> n0 == n1 == n2 == 0
    ensures var p := Select(n0, n1, n2); p.p0 <= n0 && p.p1 <= n1 && p.p2 <= n2
  {
    hide Select;
    SelectionLaws(n0, n1, n2);
  }

  lemma FittingIs(n: nat, t: nat, q: nat, e: nat)
    requires t <= MAX && (q == 25 || q == 50 || q == 100)
    requires e <= n && t + q * e <= MAX && (e < n ==> t + q * e + q > MAX)
    ensures Fitting(n, t, q) == e
  {
  }

  /** Thirteen threads or more, all of level 0: the refill takes twelve, so that by the contract of
      CreateRunningQueue its last node still points to the thirteenth. */
  lemma ThirteenThreadsRunOn(l: seq<seq<TcbNode>>, p: Pick)
    requires |l| == 4 && |l[0]| >= 13 && |l[1]| == 0 && |l[2]| == 0 && |l[RUN]| == 0
    requires p == Select(|l[0]|, |l[1]|, |l[2]|)
    ensures p == Pick(12, 0, 0) && Fits(l, p)
    ensures Filled(l, p)[RUN] == l[0][..12] && Filled(l, p)[LastLevel(p)] == l[0][12..] != []
  {
    hide Select, Filled;
    TwelveFit(|l[0]|, |l[1]|, |l[2]|);
    FilledIs(l, p);
  }

  lemma TwelveFit(n0: nat, n1: nat, n2: nat)
    requires n0 >= 12 && n1 == 0 && n2 == 0
    ensures Select(n0, n1, n2) == Pick(12, 0, 0)
  {
    hide Select;
    SelectionLaws(n0, n1, n2);
  }

  lemma FilledIs(l: seq<seq<TcbNode>>, p: Pick)
    requires Fits(l, p) && p.p1 == 0 && p.p2 == 0 && |l[RUN]| == 0
    ensures Filled(l, p)[RUN] == l[0][..p.p0] && Filled(l, p)[0] == l[0][p.p0..]
  {
  }
}
