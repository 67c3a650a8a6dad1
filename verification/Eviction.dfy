/** What second-chance eviction promises (`evictPage` in Memory_Manager/totalrecall.c). */
module Eviction {
  import opened PageTable

  /** Two tables that differ at most in reference bits that were cleared. */
  ghost predicate OnlyClears(before: seq<PageNode>, after: seq<PageNode>) {
    && |after| == |before|
    && forall i :: 0 <= i < |before| ==>
         after[i] == before[i] || after[i] == before[i].(referenceBit := false)
  }

  /** One call clears one set bit a round and ends in a round that clears none. */
  lemma {:induction false} EvictionRounds(s: State)
    requires s.Valid()
    ensures var (s', v, rounds) := Evict(s);
            && OnlyClears(s.nodes, s'.nodes)
            && (forall i :: |s.ram| <= i < |s.nodes| ==> s'.nodes[i] == s.nodes[i])
            && !s'.nodes[v].referenceBit
            && SetBits(s'.nodes[..|s.ram|]) + rounds == SetBits(s.nodes[..|s.ram|]) + 1
            && 1 <= rounds <= SetBits(s.nodes[..|s.ram|]) + 1
    decreases SetBits(s.nodes[..|s.ram|])
  {
    var h := Candidate(s);
    if s.nodes[h].referenceBit {
      ClearingLowersSetBits(s.nodes[..|s.ram|], h);
      assert ClearBit(s.nodes, h)[..|s.ram|] == ClearBit(s.nodes[..|s.ram|], h);
      EvictionRounds(s.(nodes := ClearBit(s.nodes, h), hand := s.After(h)));
    }
  }

  /** The running thread loses a frame only right behind another frame of its own. */
  lemma {:induction false} OwnVictimFollowsOwnFrame(s: State)
    requires s.Valid()
    ensures var v := Evict(s).1;
            s.nodes[v].threadid == s.currThread ==>
              exists p :: 0 <= p < |s.ram| && s.After(p) == v && s.nodes[p].threadid == s.currThread
    decreases SetBits(s.nodes[..|s.ram|])
  {
    var h := Candidate(s);
    if s.nodes[h].referenceBit {
      ClearingLowersSetBits(s.nodes[..|s.ram|], h);
      assert ClearBit(s.nodes, h)[..|s.ram|] == ClearBit(s.nodes[..|s.ram|], h);
      var s1 := s.(nodes := ClearBit(s.nodes, h), hand := s.After(h));
      OwnVictimFollowsOwnFrame(s1);
      var v := Evict(s1).1;
      if s.nodes[v].threadid == s.currThread {
        var p :| 0 <= p < |s.ram| && s1.After(p) == v && s1.nodes[p].threadid == s1.currThread;
        assert s.After(p) == v && s.nodes[p].threadid == s.currThread;
      }
    } else {
      assert h != s.hand ==> s.After(s.hand) == h;
    }
  }

  /** Frame i lies between `start` and the hand, which has passed the end of the ring `laps` times. */
  ghost predicate Passed(start: nat, hand: nat, laps: nat, i: nat) {
    if laps == 0 then start <= i < hand else laps > 1 || start <= i || i < hand
  }

  /** Every frame that is not the running thread's has used up its reference bit. */
  ghost predicate BitsUsedUp(s: State)
    requires s.Valid()
  {
    forall i :: 0 <= i < |s.ram| ==> s.nodes[i].threadid == s.currThread || !s.nodes[i].referenceBit
  }

  /** The second chance: a frame whose bit was set when the call began is chosen only when
      every frame that is not the running thread's has used up its own bit. */
  lemma SecondChance(s: State)
    requires s.Valid()
    ensures var (s', v, _) := Evict(s);
            s.nodes[v].referenceBit ==> BitsUsedUp(s')
  {
    SecondChanceFrom(s, s, 0);
  }

  /** A call that began in `entry` has come to s: the frames it passed are used up, the others untouched. */
  ghost predicate Scanning(entry: State, s: State, laps: nat) {
    && entry.Valid() && s.Valid()
    && |s.nodes| == |entry.nodes| && |s.ram| == |entry.ram|
    && (laps == 0 ==> entry.hand <= s.hand)
    && (forall i :: 0 <= i < |s.ram| ==>
          && s.nodes[i].threadid == entry.nodes[i].threadid
          && if Passed(entry.hand, s.hand, laps, i)
             then s.nodes[i].threadid == s.currThread || !s.nodes[i].referenceBit
             else s.nodes[i] == entry.nodes[i])
  }

  lemma ScanStep(entry: State, s: State, laps: nat)
    requires Scanning(entry, s, laps)
    requires s.nodes[Candidate(s)].referenceBit
    ensures var h := Candidate(s);
            var s1 := s.(nodes := ClearBit(s.nodes, h), hand := s.After(h));
            Scanning(entry, s1, if s1.hand <= s.hand then laps + 1 else laps)
  {
  }

  lemma {:induction false} SecondChanceFrom(entry: State, s: State, laps: nat)
    requires Scanning(entry, s, laps)
    ensures var (s', v, _) := Evict(s);
            entry.nodes[v].referenceBit ==> BitsUsedUp(s')
    decreases SetBits(s.nodes[..|s.ram|])
  {
    var h := Candidate(s);
    if s.nodes[h].referenceBit {
      ClearingLowersSetBits(s.nodes[..|s.ram|], h);
      assert ClearBit(s.nodes, h)[..|s.ram|] == ClearBit(s.nodes[..|s.ram|], h);
      ScanStep(entry, s, laps);
      var s1 := s.(nodes := ClearBit(s.nodes, h), hand := s.After(h));
      SecondChanceFrom(entry, s1, if s1.hand <= s.hand then laps + 1 else laps);
    }
  }

  // ---------- exactly which frame ----------

  /** The frame k steps around the ring from the hand. */
  function Step(s: State, k: nat): (i: nat)
    requires s.Valid()
    ensures i < |s.ram|
  {
    (s.hand + k) % |s.ram|
  }

  predicate Own(s: State, k: nat)
    requires s.Valid()
  {
    s.nodes[Step(s, k)].threadid == s.currThread
  }

  /** How many steps directly before step k, and not before the hand, lead to the running thread's own frames. */
  function OwnBefore(s: State, k: nat): nat
    requires s.Valid()
  {
    if k > 0 && Own(s, k - 1) then OwnBefore(s, k - 1) + 1 else 0
  }

  /** Of a row of own frames every other one is passed over, beginning with the first; every frame of
      another thread is looked at. */
  predicate LookedAt(s: State, k: nat)
    requires s.Valid()
  {
    Own(s, k) ==> OwnBefore(s, k) % 2 == 1
  }

  /** The bit of the frame at step k was clear from the start, or the clock has cleared it. */
  predicate UsedUp(s: State, k: nat)
    requires s.Valid()
  {
    s.nodes[Step(s, k)].referenceBit ==> exists j :: 0 <= j < k && LookedAt(s, j) && Step(s, j) == Step(s, k)
  }

  /** Step k is the first that looks at a frame whose bit is used up. */
  predicate Chosen(s: State, k: nat)
    requires s.Valid()
  {
    && LookedAt(s, k) && UsedUp(s, k)
    && forall j :: 0 <= j < k && LookedAt(s, j) ==> !UsedUp(s, j)
  }

  /** The bits after k steps: those of the frames looked at are clear. */
  ghost predicate ClearedBy(s: State, k: nat, nodes: seq<PageNode>)
    requires s.Valid()
  {
    && |nodes| == |s.nodes|
    && forall i :: 0 <= i < |nodes| ==>
         nodes[i] == if exists j :: 0 <= j < k && LookedAt(s, j) && Step(s, j) == i
                     then s.nodes[i].(referenceBit := false) else s.nodes[i]
  }

  /** The call that began in `entry` has made c steps without finding a victim, and is in s. */
  ghost predicate Searching(entry: State, c: nat, s: State) {
    && entry.Valid() && s.Valid() && s == entry.(nodes := s.nodes, hand := Step(entry, c))
    && OwnBefore(entry, c) % 2 == 0
    && (forall j :: 0 <= j < c && LookedAt(entry, j) ==> !UsedUp(entry, j))
    && ClearedBy(entry, c, s.nodes)
  }

  lemma StepOn(s: State, k: nat)
    requires s.Valid()
    ensures Step(s, k + 1) == s.After(Step(s, k))
  {
    NextRest(s.hand + k, |s.ram|);
  }

  lemma NextRest(x: nat, n: nat)
    requires n > 0
    ensures (x + 1) % n == if x % n == n - 1 then 0 else x % n + 1
  {
    var q, r := x / n, x % n;
    assert x == q * n + r;
    if r == n - 1 {
      assert (q + 1) * n == q * n + n;
      RestIs(x + 1, q + 1, n, 0);
    } else {
      RestIs(x + 1, q, n, r + 1);
    }
  }

  lemma MoreMultiples(a: nat, b: nat, n: nat)
    ensures a <= b ==> a * n <= b * n
  {
  }

  lemma RestIs(x: nat, q: nat, n: nat, r: nat)
    requires r < n && x == q * n + r
    ensures x % n == r
  {
    var q', r' := x / n, x % n;
    assert x == q' * n + r';
    assert (q + 1) * n == q * n + n && (q' + 1) * n == q' * n + n;
    MoreMultiples(q + 1, q', n);
    MoreMultiples(q' + 1, q, n);
  }

  /** Where the loop looks next, as a step of the call. */
  function NextStep(entry: State, c: nat): nat
    requires entry.Valid()
  {
    if Own(entry, c) then c + 1 else c
  }

  lemma LookNext(entry: State, c: nat)
    requires entry.Valid() && OwnBefore(entry, c) % 2 == 0
    ensures var k := NextStep(entry, c);
            && LookedAt(entry, k) && OwnBefore(entry, k + 1) % 2 == 0
            && (forall j :: 0 <= j < k && LookedAt(entry, j) ==> j < c)
  {
    hide Own;
  }

  lemma NextStepIs(entry: State, c: nat, s: State)
    requires Searching(entry, c, s)
    ensures var k := NextStep(entry, c);
            Candidate(s) == Step(entry, k) && s.After(Step(entry, k)) == Step(entry, k + 1)
  {
    StepOn(entry, c);
    StepOn(entry, NextStep(entry, c));
    hide Step, LookedAt, UsedUp, OwnBefore;
    assert s.nodes[Step(entry, c)].threadid == entry.nodes[Step(entry, c)].threadid;
  }

  /** The bit that the loop finds tells whether the step is used up. */
  lemma BitTells(entry: State, c: nat, s: State, k: nat)
    requires Searching(entry, c, s) && LookedAt(entry, k)
    requires forall j :: 0 <= j < k && LookedAt(entry, j) ==> j < c
    requires k >= c
    ensures ClearedBy(entry, k, s.nodes)
    ensures s.nodes[Step(entry, k)].referenceBit <==> !UsedUp(entry, k)
  {
    hide Step, LookedAt;
  }

  lemma ClearMore(entry: State, k: nat, nodes: seq<PageNode>)
    requires entry.Valid() && ClearedBy(entry, k, nodes) && LookedAt(entry, k)
    ensures ClearedBy(entry, k + 1, ClearBit(nodes, Step(entry, k)))
  {
    hide Step, LookedAt;
  }

  lemma SearchOn(entry: State, c: nat, s: State, k: nat)
    requires Searching(entry, c, s) && k == NextStep(entry, c) && s.nodes[Candidate(s)].referenceBit
    ensures Candidate(s) == Step(entry, k)
    ensures Searching(entry, k + 1, s.(nodes := ClearBit(s.nodes, Step(entry, k)), hand := Step(entry, k + 1)))
  {
    LookNext(entry, c);
    NextStepIs(entry, c, s);
    BitTells(entry, c, s, k);
    ClearMore(entry, k, s.nodes);
    hide Step, LookedAt, UsedUp, ClearedBy, OwnBefore, Candidate;
  }

  lemma EvictUnfolds(s: State)
    requires s.Valid()
    ensures var h := Candidate(s);
            if s.nodes[h].referenceBit then
              var s1 := s.(nodes := ClearBit(s.nodes, h), hand := s.After(h));
              && s1.Valid() && SetBits(s1.nodes[..|s1.ram|]) < SetBits(s.nodes[..|s.ram|])
              && Evict(s).0 == Evict(s1).0 && Evict(s).1 == Evict(s1).1
            else Evict(s).0 == s.(hand := s.After(h)) && Evict(s).1 == h
  {
    var h := Candidate(s);
    if s.nodes[h].referenceBit {
      ClearingLowersSetBits(s.nodes[..|s.ram|], h);
      assert ClearBit(s.nodes, h)[..|s.ram|] == ClearBit(s.nodes[..|s.ram|], h);
    }
  }

  /** The call ends in step k. */
  ghost predicate EndsAt(entry: State, k: nat, s': State, v: nat) {
    && entry.Valid() && Chosen(entry, k) && ClearedBy(entry, k, s'.nodes)
    && v == Step(entry, k) && s'.hand == Step(entry, k + 1)
  }

  lemma SearchEnds(entry: State, c: nat, s: State)
    requires Searching(entry, c, s) && !s.nodes[Candidate(s)].referenceBit
    ensures EndsAt(entry, NextStep(entry, c), Evict(s).0, Evict(s).1)
  {
    LookNext(entry, c);
    NextStepIs(entry, c, s);
    BitTells(entry, c, s, NextStep(entry, c));
    EvictUnfolds(s);
    hide Step, LookedAt, UsedUp, ClearedBy, OwnBefore, Candidate, NextStep, Evict, SetBits, ClearBit;
  }

  lemma {:induction false} EvictFrom(entry: State, c: nat, s: State) returns (k: nat)
    requires Searching(entry, c, s)
    ensures EndsAt(entry, k, Evict(s).0, Evict(s).1)
    decreases SetBits(s.nodes[..|s.ram|])
  {
    hide Step, ClearedBy, OwnBefore, NextStep, Evict, SetBits, EndsAt, LookedAt, UsedUp;
    k := NextStep(entry, c);
    var h := Candidate(s);
    if s.nodes[h].referenceBit {
      NextStepIs(entry, c, s);
      SearchOn(entry, c, s, k);
      EvictUnfolds(s);
      var s1 := s.(nodes := ClearBit(s.nodes, h), hand := s.After(h));
      hide Searching, ClearBit, Candidate;
      k := EvictFrom(entry, k + 1, s1);
    } else {
      SearchEnds(entry, c, s);
    }
  }

  /** Which frame is evicted, without the loop: that of the first step which looks at a frame whose bit
      is used up.  The frames looked at before it have their bits cleared, and nothing else changes; the
      hand goes behind it. */
  lemma EvictIsChosen(s: State) returns (k: nat)
    requires s.Valid()
    ensures Chosen(s, k)
    ensures var (s', v, _) := Evict(s);
            v == (s.hand + k) % |s.ram| && s'.hand == (v + 1) % |s.ram| && ClearedBy(s, k, s'.nodes)
            && s' == s.(nodes := s'.nodes, hand := s'.hand)
  {
    SearchBegins(s);
    k := EvictFrom(s, 0, s);
    StepOn(s, k);
    StepOn(s.(hand := Step(s, k)), 0);
    SearchBegins(s.(hand := Step(s, k)));
    hide Chosen, ClearedBy, Searching, Evict;
  }

  lemma SearchBegins(s: State)
    requires s.Valid()
    ensures Step(s, 0) == s.hand && Searching(s, 0, s)
  {
    RestIs(s.hand, 0, |s.ram|, s.hand);
    assert s == s.(nodes := s.nodes, hand := s.hand);
    hide Step, LookedAt, UsedUp;
  }

  /** No frame is passed over: whatever frame of another thread had a clear bit when the call began, the
      victim is not farther from the hand.  The same holds of a frame right behind an own frame at the
      hand, even if it is the running thread's own. */
  lemma NoneSkipped(s: State, d: nat) returns (k: nat)
    requires s.Valid() && !s.nodes[(s.hand + d) % |s.ram|].referenceBit
    requires s.nodes[(s.hand + d) % |s.ram|].threadid != s.currThread || (d == 1 && s.nodes[s.hand].threadid == s.currThread)
    ensures k <= d && Evict(s).1 == (s.hand + k) % |s.ram|
  {
    k := EvictIsChosen(s);
    SearchBegins(s);
    NotBeyond(s, k, d);
  }

  lemma NotBeyond(s: State, k: nat, d: nat)
    requires s.Valid() && Chosen(s, k) && !s.nodes[Step(s, d)].referenceBit
    requires !Own(s, d) || (d == 1 && Own(s, 0))
    ensures k <= d
  {
    hide Own, Step;
    assert d == 1 && Own(s, 0) ==> OwnBefore(s, 1) == OwnBefore(s, 0) + 1 == 1;
    assert LookedAt(s, d) && UsedUp(s, d);
  }
}
