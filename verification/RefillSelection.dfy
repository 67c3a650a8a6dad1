/** How many threads of each level a refill of the running queue takes: the fill of
    Memory_Manager/my_pthread.c, and the older fill of Pthreads/my_pthread.c. */
module RefillSelection {

  const MAX: nat := 300   // milliseconds in one filling of the running queue

  function Quantum(level: nat): nat {
    if level == 2 then 100 else if level == 1 then 50 else 25
  }

  datatype Pick = Pick(p0: nat, p1: nat, p2: nat)
  {
    function Total(): nat {
      25 * p0 + 50 * p1 + 100 * p2
    }

    function Of(level: nat): nat {
      if level == 0 then p0 else if level == 1 then p1 else p2
    }
  }

  function Min(a: nat, b: nat): nat {
    if a < b then a else b
  }

  /** How many quanta of q fit into the room left by t, when n are wanted. */
  function Fitting(n: nat, t: nat, q: nat): (e: nat)
    requires t <= MAX && q > 0
    ensures e <= n && t + q * e <= MAX && (e < n ==> t + q * e + q > MAX)
  {
    var room := (MAX - t) / q;
    assert q * room <= MAX - t < q * room + q;
    assert n <= room ==> q * n <= q * room;
    Min(n, room)
  }

  /** One thread of level 2, two of level 1, then as many of level 0 as fit. */
  function FirstPick(n0: nat, n1: nat, n2: nat): (p: Pick)
    ensures p.Total() <= MAX && p.Total() % 25 == 0
  {
    var p2, p1 := Min(n2, 1), Min(n1, 2);
    Pick(Fitting(n0, 100 * p2 + 50 * p1, 25), p1, p2)
  }

  /** The fill for queues of n0, n1 and n2 threads: the room that is left goes to level 1, then level 2. */
  function Select(n0: nat, n1: nat, n2: nat): (p: Pick) {
    var b := FirstPick(n0, n1, n2);
    var e1 := Fitting(n1 - b.p1, b.Total(), 50);
    var e2 := Fitting(n2 - b.p2, b.Total() + 50 * e1, 100);
    Pick(b.p0, b.p1 + e1, b.p2 + e2)
  }

  /** For all queue lengths the fill stays within 300 ms, honours the 4-2-1 quota, leaves a thread
      of a level out only when its quantum no longer fits, and is empty only if all queues are. */
  lemma SelectionLaws(n0: nat, n1: nat, n2: nat)
    ensures var p := Select(n0, n1, n2);
            && p.Total() <= MAX
            && Min(n0, 4) <= p.p0 <= n0 && Min(n1, 2) <= p.p1 <= n1 && Min(n2, 1) <= p.p2 <= n2
            && (p.p0 < n0 ==> p.Total() + 25 > MAX)
            && (p.p1 < n1 ==> p.Total() + 50 > MAX)
            && (p.p2 < n2 ==> p.Total() + 100 > MAX)
            && (p == Pick(0, 0, 0) ==> n0 == n1 == n2 == 0)
  {
  }

  /** The laws of the fill in the program's own numbers, with the order in which room is given away:
      one thread of level 2 and two of level 1 come first, then level 0; more of level 1 only if no
      thread of level 0 is left out, and more of level 2 only if none of level 1 is either. */
  predicate FillLaws(n0: nat, n1: nat, n2: nat, p: Pick) {
    var total := 25 * p.p0 + 50 * p.p1 + 100 * p.p2;
    && total <= 300 && p.p0 <= n0 && p.p1 <= n1 && p.p2 <= n2
    && (p.p1 == n1 || p.p1 >= 2) && (p.p2 == n2 || p.p2 >= 1)
    && (p.p0 < n0 ==> total + 25 > 300)
    && (p.p1 < n1 ==> total + 50 > 300)
    && (p.p2 < n2 ==> total + 100 > 300)
    && (p.p1 > 2 ==> p.p0 == n0)
    && (p.p2 > 1 ==> p.p0 == n0 && p.p1 == n1)
  }

  /** The fill is the one choice that meets these laws. */
  lemma SelectIsTheFill(n0: nat, n1: nat, n2: nat, p: Pick)
    ensures p == Select(n0, n1, n2) <==> FillLaws(n0, n1, n2, p)
  {
    SelectMeetsLaws(n0, n1, n2);
    if FillLaws(n0, n1, n2, p) {
      hide Select;
      OneFill(n0, n1, n2, p, Select(n0, n1, n2));
    }
  }

  lemma SelectMeetsLaws(n0: nat, n1: nat, n2: nat)
    ensures FillLaws(n0, n1, n2, Select(n0, n1, n2))
  {
  }

  lemma OneFill(n0: nat, n1: nat, n2: nat, p: Pick, q: Pick)
    requires FillLaws(n0, n1, n2, p) && FillLaws(n0, n1, n2, q)
    ensures p == q
  {
    var b1, b2 := Min(n1, 2), Min(n2, 1);
    assert p.p0 < n0 ==> p.p1 == b1 && p.p2 == b2;
    assert q.p0 < n0 ==> q.p1 == b1 && q.p2 == b2;
    assert p.p0 == q.p0;
    assert p.p1 < n1 ==> p.p2 == b2;
    assert q.p1 < n1 ==> q.p2 == b2;
  }

  /** Both fills begin so: at most one thread of level 2 and two of level 1, and of level 0 as many as
      fit into what remains of 300 ms. */
  lemma FirstPickIs(n0: nat, n1: nat, n2: nat)
    ensures var p := FirstPick(n0, n1, n2);
            var total := 25 * p.p0 + 50 * p.p1 + 100 * p.p2;
            && p.p1 == (if n1 >= 2 then 2 else n1) && p.p2 == (if n2 >= 1 then 1 else 0)
            && p.p0 <= n0 && total <= 300 && (p.p0 < n0 ==> total + 25 > 300)
  {
  }

  // ---------- the older fill ----------

  datatype Where = Level1 | Level2 | Finished

  /** The second half of the older fill, between two tests of a loop condition. */
  datatype Fill = Fill(pos: Where, pick: Pick, left1: nat, left2: nat)

  function Start(n0: nat, n1: nat, n2: nat): (f: Fill) {
    var b := FirstPick(n0, n1, n2);
    Fill(if b.Total() < MAX then Level1 else Finished, b, n1 - b.p1, n2 - b.p2)
  }

  /** One test of a loop condition and, if it holds, one run of that loop's body.  A body that
      finds no room changes nothing: it does not step past the thread it looked at. */
  function Step(f: Fill): Fill {
    match f.pos
    case Level1 =>
      if f.left1 > 0 && f.pick.Total() < MAX then
        if f.pick.Total() + 50 <= MAX then f.(pick := f.pick.(p1 := f.pick.p1 + 1), left1 := f.left1 - 1) else f
      else f.(pos := Level2)
    case Level2 =>
      if f.left2 > 0 && f.pick.Total() < MAX then
        if f.pick.Total() + 100 <= MAX then f.(pick := f.pick.(p2 := f.pick.p2 + 1), left2 := f.left2 - 1) else f
      else f.(pos := Finished)
    case Finished => f
  }

  function Steps(f: Fill, k: nat): Fill
    decreases k
  {
    if k == 0 then f else Steps(Step(f), k - 1)
  }

  /** The loop never ends from here. */
  predicate Stuck(f: Fill) {
    f.pos != Finished && Step(f) == f
  }

  lemma {:induction false} StepsAdd(f: Fill, j: nat, k: nat)
    ensures Steps(f, j + k) == Steps(Steps(f, j), k)
    decreases j
  {
    if j > 0 {
      StepsAdd(Step(f), j - 1, k);
    }
  }

  lemma {:induction false} StuckForever(f: Fill, k: nat)
    requires Step(f) == f
    ensures Steps(f, k) == f
  {
    if k > 0 {
      StuckForever(f, k - 1);
    }
  }

  /** Where the level-2 loop comes to rest. */
  function RestOfLevel2(f: Fill): Fill
    requires f.pick.Total() <= MAX
  {
    var e := Fitting(f.left2, f.pick.Total(), 100);
    var g := f.(pick := f.pick.(p2 := f.pick.p2 + e), left2 := f.left2 - e);
    if g.left2 == 0 || g.pick.Total() == MAX then g.(pos := Finished) else g
  }

  lemma {:induction false} Level2ComesToRest(f: Fill) returns (k: nat)
    requires f.pos == Level2 && f.pick.Total() <= MAX
    ensures Steps(f, k) == RestOfLevel2(f)
    decreases f.left2
  {
    var g := Step(f);
    if g.pos == Finished {
      k := 1;
      assert Steps(f, 1) == Steps(g, 0);
    } else if g == f {
      k := 0;
    } else {
      k := Level2ComesToRest(g);
      k := k + 1;
    }
  }

  /** Where the level-1 loop comes to rest: stuck, or at the start of the level-2 loop. */
  function RestOfLevel1(f: Fill): Fill
    requires f.pick.Total() <= MAX
  {
    var e := Fitting(f.left1, f.pick.Total(), 50);
    var g := f.(pick := f.pick.(p1 := f.pick.p1 + e), left1 := f.left1 - e);
    if g.left1 == 0 || g.pick.Total() == MAX then g.(pos := Level2) else g
  }

  lemma {:induction false} Level1ComesToRest(f: Fill) returns (k: nat)
    requires f.pos == Level1 && f.pick.Total() <= MAX
    ensures Steps(f, k) == RestOfLevel1(f)
    decreases f.left1
  {
    var g := Step(f);
    if g.pos == Level2 {
      k := 1;
      assert Steps(f, 1) == Steps(g, 0);
    } else if g == f {
      k := 0;
    } else {
      k := Level1ComesToRest(g);
      k := k + 1;
    }
  }

  predicate Agrees(n1: nat, n2: nat, p: Pick) {
    p.Total() == MAX || (p.p1 == n1 && p.p2 == n2)
  }

  lemma RestOfLevel1Is(n0: nat, n1: nat, n2: nat)
    requires Start(n0, n1, n2).pos == Level1
    ensures var p, r, b := Select(n0, n1, n2), RestOfLevel1(Start(n0, n1, n2)), FirstPick(n0, n1, n2);
            && r.pick == Pick(b.p0, p.p1, b.p2) && r.pick.Total() <= MAX
            && r.left1 == n1 - p.p1 && r.left2 == n2 - b.p2
            && p.p0 == b.p0 && p.p2 == b.p2 + Fitting(n2 - b.p2, r.pick.Total(), 100)
            && if r.pos == Level1 then r.left1 > 0 && r.pick.Total() + 25 == MAX else
               r.pos == Level2 && (r.left1 == 0 || r.pick.Total() == MAX)
  {
    hide Fitting, FirstPick;
  }

  lemma RestIsSelection(n0: nat, n1: nat, n2: nat)
    ensures var s, p := Start(n0, n1, n2), Select(n0, n1, n2);
            if s.pos == Finished then s.pick == p && Agrees(n1, n2, p) else
            var r := RestOfLevel1(s);
            if r.pos == Level1 then Stuck(r) && !Agrees(n1, n2, p) else
            && r.pos == Level2 && r.pick.Total() <= MAX
            && var f := RestOfLevel2(r);
               if Agrees(n1, n2, p) then f.pos == Finished && f.pick == p else Stuck(f)
  {
    var s, p := Start(n0, n1, n2), Select(n0, n1, n2);
    if s.pos == Level1 {
      RestOfLevel1Is(n0, n1, n2);
      hide Fitting, FirstPick, Start, Select, RestOfLevel1;
    }
  }

  /** The older fill comes to rest at some step: with the newer fill's choice exactly when that
      fills the 300 ms or leaves no thread of level 1 or 2 out, and otherwise in a loop whose body
      changes nothing. */
  lemma FillsAgreeOrOneSticks(n0: nat, n1: nat, n2: nat) returns (k: nat)
    ensures var p, f := Select(n0, n1, n2), Steps(Start(n0, n1, n2), k);
            if Agrees(n1, n2, p) then f.pos == Finished && f.pick == p else Stuck(f)
  {
    hide Select, RestOfLevel1, RestOfLevel2, Agrees, Stuck;
    RestIsSelection(n0, n1, n2);
    var s := Start(n0, n1, n2);
    if s.pos == Finished {
      k := 0;
    } else {
      var k1 := Level1ComesToRest(s);
      var s1 := RestOfLevel1(s);
      k := k1;
      if s1.pos == Level2 {
        var k2 := Level2ComesToRest(s1);
        StepsAdd(s, k1, k2);
        k := k1 + k2;
      }
    }
  }

  /** So the older fill ends if and only if the condition holds. */
  lemma OlderFillEndsIff(n0: nat, n1: nat, n2: nat)
    ensures (exists k :: Steps(Start(n0, n1, n2), k).pos == Finished) <==> Agrees(n1, n2, Select(n0, n1, n2))
  {
    var s := Start(n0, n1, n2);
    var k := FillsAgreeOrOneSticks(n0, n1, n2);
    var f := Steps(s, k);
    forall j: nat | Stuck(f) ensures Steps(s, j).pos != Finished {
      if j >= k {
        StepsAdd(s, k, j - k);
        StuckForever(f, j - k);
      } else {
        StepsAdd(s, j, k - j);
        if Steps(s, j).pos == Finished { StuckForever(Steps(s, j), k - j); }
      }
    }
  }

  /** Seven threads of level 0 and three or more of level 1: the choice fills 275 ms and leaves a
      thread that does not fit, so that the older fill never ends. */
  lemma OlderFillSticks(n0: nat, n1: nat, n2: nat)
    requires n0 == 7 && n1 >= 3 && n2 == 0
    ensures Select(n0, n1, n2) == Pick(7, 2, 0) && forall k: nat :: Steps(Start(n0, n1, n2), k).pos != Finished
  {
    hide Steps, Start;
    var b := FirstPick(n0, n1, n2);
    assert b == Pick(7, 2, 0);
    assert Fitting(n1 - 2, b.Total(), 50) == 0;
    OlderFillEndsIff(n0, n1, n2);
  }
}
