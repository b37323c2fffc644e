/** The work distribution of the table builder: `parallelize` deals the
    indices [nMin, nMax) round-robin to `threads` workers.  The workers run
    concurrently in the program; here their calls are recorded in the order
    worker 0 makes all of its calls, then worker 1, and so on. */
module Parallel {
  import opened Arith

  /** The worker that handles index `i`. */
  function Owner(threads: int, nMin: int, i: int): int
    requires threads > 0
  {
    (i - nMin) % threads
  }

  /** The indices worker `k` handles. */
  function WorkerIndices(threads: int, nMin: int, nMax: int, k: int): set<int>
    requires threads > 0
  {
    set i | nMin <= i < nMax && Owner(threads, nMin, i) == k
  }

  /** The workers' index sets are pairwise disjoint and together cover the
      range: every index belongs to exactly one of them. */
  lemma WorkersPartition(threads: int, nMin: int, nMax: int, i: int)
    requires threads > 0 && nMin <= i < nMax
    ensures 0 <= Owner(threads, nMin, i) < threads
    ensures i in WorkerIndices(threads, nMin, nMax, Owner(threads, nMin, i))
    ensures forall k :: k != Owner(threads, nMin, i) ==> i !in WorkerIndices(threads, nMin, nMax, k)
  {
  }

  /** Stepping by one period keeps the residue. */
  lemma ResidueStep(a: int, t: int)
    requires t > 0
    ensures (a + t) % t == a % t
  {
    DivModUnique(a + t, t, a / t + 1, a % t);
  }

  /** Two numbers with the same residue that are less than one period apart
      are equal. */
  lemma SameResidue(a: int, b: int, t: int)
    requires t > 0 && b <= a < b + t && a % t == b % t
    ensures a == b
  {
    var qa, qb := a / t, b / t;
    assert (qa - qb) * t == a - b;
    if qa - qb >= 1 {
      MulAtLeast(qa - qb, t);
      assert false;
    } else if qb - qa >= 1 {
      MulAtLeast(qb - qa, t);
      assert false;
    }
  }

  /** `parallelize(threads, nMin, nMax, action)`, returning the (worker,
      index) pairs passed to `action`.  Every index in [nMin, nMax) is handed
      to exactly one worker, namely `(i - nMin) % threads`, and nothing else is
      handed out. */
  method Parallelize(threads: int, nMin: int, nMax: int) returns (calls: seq<(int, int)>)
    ensures threads <= 0 ==> calls == []
    ensures forall j :: 0 <= j < |calls| ==>
              threads > 0 && nMin <= calls[j].1 < nMax && calls[j].0 == Owner(threads, nMin, calls[j].1)
    ensures threads > 0 ==> forall i :: nMin <= i < nMax ==> (Owner(threads, nMin, i), i) in calls
    ensures forall j1, j2 :: 0 <= j1 < j2 < |calls| ==> calls[j1].1 != calls[j2].1
  {
    calls := [];
    var k := 0;
    while k < threads
      invariant 0 <= k && (threads > 0 ==> k <= threads)
      invariant threads <= 0 ==> calls == []
      invariant forall j :: 0 <= j < |calls| ==>
                  threads > 0 && nMin <= calls[j].1 < nMax && calls[j].0 == Owner(threads, nMin, calls[j].1) && calls[j].0 < k
      invariant threads > 0 ==> forall i :: nMin <= i < nMax && Owner(threads, nMin, i) < k ==> (Owner(threads, nMin, i), i) in calls
      invariant forall j1, j2 :: 0 <= j1 < j2 < |calls| ==> calls[j1].1 != calls[j2].1
    {
      var mine := WorkerCalls(threads, nMin, nMax, k);
      calls := calls + mine;
      k := k + 1;
    }
  }

  /** The calls worker `k` makes: `for(i = nMin + k; i < nMax; i += threads)`.
      They are exactly the indices it owns, in increasing order. */
  method WorkerCalls(threads: int, nMin: int, nMax: int, k: int) returns (mine: seq<(int, int)>)
    requires 0 <= k < threads
    ensures forall j :: 0 <= j < |mine| ==>
              mine[j].0 == k && nMin <= mine[j].1 < nMax && Owner(threads, nMin, mine[j].1) == k
    ensures forall j1, j2 :: 0 <= j1 < j2 < |mine| ==> mine[j1].1 < mine[j2].1
    ensures forall i :: nMin <= i < nMax && Owner(threads, nMin, i) == k ==> (k, i) in mine
  {
    mine := [];
    var i := nMin + k;
    DivModUnique(k, threads, 0, k);
    while i < nMax
      invariant nMin + k <= i && Owner(threads, nMin, i) == k
      invariant forall j :: 0 <= j < |mine| ==>
                  mine[j].0 == k && nMin <= mine[j].1 < i && mine[j].1 < nMax && Owner(threads, nMin, mine[j].1) == k
      invariant forall j1, j2 :: 0 <= j1 < j2 < |mine| ==> mine[j1].1 < mine[j2].1
      invariant forall i' :: nMin <= i' < i && i' < nMax && Owner(threads, nMin, i') == k ==> (k, i') in mine
    {
      CoverStep(threads, nMin, nMax, k, i, mine);
      mine := mine + [(k, i)];
      ResidueStep(i - nMin, threads);
      i := i + threads;
    }
  }

  /** One pass of a worker's loop: after recording index `i`, every owned
      index below the next one, `i + threads`, has been recorded. */
  lemma CoverStep(threads: int, nMin: int, nMax: int, k: int, i: int, mine: seq<(int, int)>)
    requires threads > 0 && nMin <= i && Owner(threads, nMin, i) == k
    requires forall i' :: nMin <= i' < i && i' < nMax && Owner(threads, nMin, i') == k ==> (k, i') in mine
    ensures forall i' :: nMin <= i' < i + threads && i' < nMax && Owner(threads, nMin, i') == k ==> (k, i') in mine + [(k, i)]
  {
    forall i' | nMin <= i' < i + threads && i' < nMax && Owner(threads, nMin, i') == k
      ensures (k, i') in mine + [(k, i)]
    {
      if i' >= i {
        SameResidue(i' - nMin, i - nMin, threads);
      } else {
        assert (k, i') in mine;
      }
    }
  }

  /** With one worker per index, as the table builder runs it (one worker per
      Z slice), worker k handles exactly index nMin + k. */
  lemma OneIndexPerWorker(threads: int, nMin: int, i: int)
    requires threads > 0 && nMin <= i < nMin + threads
    ensures Owner(threads, nMin, i) == i - nMin
    ensures WorkerIndices(threads, nMin, nMin + threads, i - nMin) == {i}
  {
    forall i' | nMin <= i' < nMin + threads
      ensures Owner(threads, nMin, i') == i' - nMin
    {
      DivModUnique(i' - nMin, threads, 0, i' - nMin);
    }
    assert i in WorkerIndices(threads, nMin, nMin + threads, i - nMin);
  }
}
