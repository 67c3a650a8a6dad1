/** The page budget: how many pages each thread may touch, and why a place is always left. */
module PageBudget {
  import opened PageTable
  import opened Transparency

  function Sum(counts: seq<nat>): nat {
    if counts == [] then 0 else Sum(counts[..|counts| - 1]) + counts[|counts| - 1]
  }

  lemma {:induction false} SumAfterChange(counts: seq<nat>, t: nat, n: nat)
    requires t < |counts|
    ensures Sum(counts[t := n]) == Sum(counts) - counts[t] + n
  {
    var k := |counts| - 1;
    if t == k {
      assert counts[t := n][..k] == counts[..k];
    } else {
      assert counts[t := n][..k] == counts[..k][t := n];
      SumAfterChange(counts[..k], t, n);
    }
  }

  // ---------- places for pages ----------

  /** Every page of a thread lies among the pages counted for it. */
  ghost predicate InBudget(c: seq<Cell>, counts: seq<nat>) {
    forall i :: 0 <= i < |c| && c[i].owner != 0 ==>
      0 < c[i].owner < |counts| && 0 <= c[i].home < counts[c[i].owner]
  }

  /** All pages that the first n threads may have. */
  ghost function Pages(counts: seq<nat>, n: nat): set<Label>
    requires n <= |counts|
  {
    set t, h | 0 <= t < n && 0 <= h < counts[t] :: Label(t, h)
  }

  ghost function Row(t: int, n: nat): set<Label> {
    set h | 0 <= h < n :: Label(t, h)
  }

  lemma {:induction false} RowSize(t: int, n: nat)
    ensures |Row(t, n)| == n
  {
    if n == 0 {
      assert Row(t, 0) == {};
    } else {
      RowSize(t, n - 1);
      assert Row(t, n) == Row(t, n - 1) + {Label(t, n - 1)};
    }
  }

  lemma {:induction false} PagesSize(counts: seq<nat>, n: nat)
    requires n <= |counts|
    ensures |Pages(counts, n)| == Sum(counts[..n])
  {
    if n == 0 {
      assert Pages(counts, 0) == {};
    } else {
      PagesSize(counts, n - 1);
      RowSize(n - 1, counts[n - 1]);
      assert counts[..n][..n - 1] == counts[..n - 1];
      assert Pages(counts, n) == Pages(counts, n - 1) + Row(n - 1, counts[n - 1]);
      assert Pages(counts, n - 1) !! Row(n - 1, counts[n - 1]);
    }
  }

  ghost function Labels(c: seq<Cell>): set<Label> {
    set i | 0 <= i < |c| :: LabelOf(c[i])
  }

  lemma {:induction false} LabelsSize(c: seq<Cell>)
    requires Distinct(c) && forall i :: 0 <= i < |c| ==> c[i].owner != 0
    ensures |Labels(c)| == |c|
  {
    if c == [] {
      assert Labels(c) == {};
    } else {
      var k := |c| - 1;
      LabelsSize(c[..k]);
      assert Labels(c) == Labels(c[..k]) + {LabelOf(c[k])};
      forall i | 0 <= i < k ensures LabelOf(c[..k][i]) != LabelOf(c[k]) {
        assert c[..k][i] == c[i];
      }
    }
  }

  /** Pigeonhole: a thread that misses a page within its budget leaves some place free. */
  lemma FreePlaceExists(c: seq<Cell>, counts: seq<nat>, t: nat, v: nat)
    requires Distinct(c) && InBudget(c, counts) && Sum(counts) <= |c|
    requires t < |counts| && v < counts[t] && Label(t, v) !in Labels(c)
    ensures exists i :: 0 <= i < |c| && c[i].owner == 0
  {
    if forall i :: 0 <= i < |c| ==> c[i].owner != 0 {
      LabelsSize(c);
      PagesSize(counts, |counts|);
      assert counts[..|counts|] == counts;
      var all := Pages(counts, |counts|);
      assert Labels(c) + {Label(t, v)} <= all;
      SubsetSize(Labels(c) + {Label(t, v)}, all);
      assert false;
    }
  }

  lemma {:induction false} SubsetSize<T>(a: set<T>, b: set<T>)
    requires a <= b
    ensures |a| <= |b|
  {
    if a != {} {
      var x :| x in a;
      SubsetSize(a - {x}, b - {x});
    }
  }

  lemma ExhaustedMeansFull(s: State, v: nat)
    requires s.Valid() && v < |s.ram| && PathOf(s, v).Exhausted?
    ensures var c := s.Cells();
            forall i :: 0 <= i < |c| ==> c[i].owner != 0 && LabelOf(c[i]) != Label(s.currThread, v)
  {
    forall i | 0 <= i < |s.nodes|
      ensures s.CellAt(i).owner != 0 && LabelOf(s.CellAt(i)) != Label(s.currThread, v)
    {
      assert !Matches(s.nodes[i], PageOf(s.currThread, v)) && !Matches(s.nodes[i], FreePlace);
    }
  }

  /** Budget implies supply: with the counts within the number of places, a fault inside the
      running thread's count never falls through to the end of the handler. */
  lemma FaultFindsPlace(s: State, v: nat, counts: seq<nat>)
    requires s.Valid() && v < |s.ram| && Distinct(s.Cells())
    requires InBudget(s.Cells(), counts) && Sum(counts) <= |s.nodes|
    requires 0 < s.currThread < |counts| && v < counts[s.currThread]
    ensures !PathOf(s, v).Exhausted?
  {
    if PathOf(s, v).Exhausted? {
      ExhaustedMeansFull(s, v);
      FreePlaceExists(s.Cells(), counts, s.currThread, v);
    }
  }
}
