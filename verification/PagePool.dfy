/** The pages that all threads share: `pagesLeft` and the count of pages given to each thread. */
module PagePool {
  import opened PageBudget

  class Pool {
    const total: nat               // 5500 in the program
    var pagesLeft: int
    const counts: array<nat>       // by thread number

    /** Page-budget conservation: no page is lost or given twice. */
    ghost predicate Valid()
      reads this, counts
    {
      pagesLeft >= 0 && pagesLeft + Sum(counts[..]) == total
    }

    constructor (total: nat, threads: nat)
      ensures Valid() && this.total == total && pagesLeft == total && fresh(counts)
      ensures counts.Length == threads && forall t :: 0 <= t < threads ==> counts[t] == 0
    {
      this.total := total;
      pagesLeft := total;
      counts := new nat[threads](_ => 0);
      new;
      SumOfZeros(counts[..]);
    }

    /** Give n pages to thread t, or refuse. */
    method Take(t: nat, n: nat) returns (ok: bool)
      requires Valid() && t < counts.Length
      modifies this, counts
      ensures Valid()
      ensures ok <==> n <= old(pagesLeft)
      ensures ok ==> pagesLeft == old(pagesLeft) - n && counts[..] == old(counts[..])[t := old(counts[t]) + n]
      ensures !ok ==> pagesLeft == old(pagesLeft) && counts[..] == old(counts[..])
    {
      if pagesLeft - n < 0 {
        return false;
      }
      SumAfterChange(counts[..], t, counts[t] + n);
      counts[t] := counts[t] + n;
      pagesLeft := pagesLeft - n;
      return true;
    }

    /** What `protectPages` does with the budget of an exiting thread. */
    method GiveBack(t: nat)
      requires Valid() && t < counts.Length
      modifies this, counts
      ensures Valid() && pagesLeft == old(pagesLeft) + old(counts[t]) && counts[..] == old(counts[..])[t := 0]
    {
      SumAfterChange(counts[..], t, 0);
      pagesLeft := pagesLeft + counts[t];
      counts[t] := 0;
    }
  }

  lemma {:induction false} SumOfZeros(c: seq<nat>)
    requires forall t :: 0 <= t < |c| ==> c[t] == 0
    ensures Sum(c) == 0
  {
    if c != [] {
      SumOfZeros(c[..|c| - 1]);
    }
  }
}
