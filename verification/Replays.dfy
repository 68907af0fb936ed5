/** Whole runs of requests, with consumers in between, on tensors of different budgets. */
module Replays {
  import opened Pages
  import opened Residency
  import opened Budget
  import opened Batches
  import opened Requests
  import opened FileTensors
  import opened Sessions

  /** Requests that a tensor of `n` slots does not refuse. */
  ghost predicate Acceptable(g: Geometry, requests: seq<seq<Span>>, n: nat)
    requires g.Valid()
  {
    forall k :: 0 <= k < |requests| ==> AllInFile(g, requests[k]) && |Union(g, requests[k])| <= n
  }

  /** The pages each request asks for. */
  function Asked(g: Geometry, requests: seq<seq<Span>>): (asked: seq<seq<nat>>)
    requires g.Valid() && forall k :: 0 <= k < |requests| ==> AllInFile(g, requests[k])
    ensures |asked| == |requests| && forall k :: 0 <= k < |requests| ==> asked[k] == Union(g, requests[k])
  {
    seq(|requests|, k requires 0 <= k < |requests| => Union(g, requests[k]))
  }

  lemma AskedFit(g: Geometry, requests: seq<seq<Span>>, n: nat)
    requires g.Valid() && Acceptable(g, requests, n)
    ensures Fit(Asked(g, requests), n)
  {
    forall k | 0 <= k < |requests| ensures Distinct(Asked(g, requests)[k]) {
      UnionElements(g, requests[k]);
    }
  }

  /** One request more. */
  lemma OneMore(p: Pool, asked: seq<seq<nat>>, k: nat)
    requires k < |asked|
    ensures RunPools(p, asked[..k + 1]) == Request(RunPools(p, asked[..k]), asked[k])
    ensures PoolMisses(p, asked[..k + 1]) == PoolMisses(p, asked[..k]) + |Missing(RunPools(p, asked[..k]).slots, asked[k])|
  {
    var next := asked[..k + 1];
    assert next[..|next| - 1] == asked[..k] && next[|next| - 1] == asked[k];
  }

  lemma SlotsStay(p: Pool, asked: seq<seq<nat>>, k: nat)
    requires Empty(p) && Fit(asked, |p.slots|) && k <= |asked|
    ensures |RunPools(p, asked[..k]).slots| == |p.slots|
  {
    RunsRefine(p, asked[..k]);
  }

  /** A tensor that has just been opened. */
  ghost predicate Unused(t: FileTensor)
    reads t
  {
    && t.Valid() && !t.poisoned && 0 < |t.slots| && t.counters.misses == 0
    && forall i :: 0 <= i < |t.slots| ==> !t.slots[i].mapped
  }

  /** After a run without failures, whatever consumers ran in between, the slots and the miss counter
    * are those of the requests. */
  method Replay(t: FileTensor, requests: seq<seq<Span>>) returns (failed: bool)
    requires Unused(t) && Acceptable(t.g, requests, |t.slots|)
    modifies t
    ensures !failed ==> t.Mapping() == RunPools(old(t.Mapping()), Asked(t.g, requests))
    ensures !failed ==> t.counters.misses == PoolMisses(old(t.Mapping()), Asked(t.g, requests))
  {
    ghost var p, asked := t.Mapping(), Asked(t.g, requests);
    AskedFit(t.g, requests, |t.slots|);
    for k := 0 to |requests|
      invariant t.Valid() && !t.poisoned && |t.slots| == |p.slots|
      invariant t.Mapping() == RunPools(p, asked[..k]) && |t.loads| == PoolMisses(p, asked[..k])
    {
      OneMore(p, asked, k);
      SlotsStay(p, asked, k + 1);
      var ok := Meanwhile(t);
      if !ok {
        return true;
      }
      var r := t.AcquireMany(requests[k], true);
      if r == Failed(DriverFailure) {
        return true;
      }
      assert r.Done?;
    }
    assert asked[..|requests|] == asked;
    failed := false;
  }

  /** Two tensors of the same file serve the same requests. As long as both stamp the pages of each
    * request in the same order, the larger has every page of the smaller, after no more misses. */
  method LargerBudget(a: FileTensor, b: FileTensor, requests: seq<seq<Span>>) returns (failed: bool)
    requires a != b && Unused(a) && Unused(b) && a.g == b.g && |a.slots| <= |b.slots|
    requires Acceptable(a.g, requests, |a.slots|) && InStep(Asked(a.g, requests), |a.slots|, |b.slots|)
    modifies a, b
    ensures !failed ==> b.counters.misses <= a.counters.misses
    ensures !failed ==> forall page :: Resident(a.slots, page) ==> Resident(b.slots, page)
    ensures !failed ==> a.Mapping() == RunPools(old(a.Mapping()), Asked(a.g, requests))
  {
    ghost var p, q, asked := a.Mapping(), b.Mapping(), Asked(a.g, requests);
    AskedFit(a.g, requests, |a.slots|);
    failed := Replay(a, requests);
    if failed {
      return;
    }
    failed := Replay(b, requests);
    if failed {
      return;
    }
    BudgetsCompare(p, q, asked);
  }

  lemma BudgetsCompare(p: Pool, q: Pool, asked: seq<seq<nat>>)
    requires Empty(p) && Empty(q) && |p.slots| <= |q.slots|
    requires Fit(asked, |p.slots|) && InStep(asked, |p.slots|, |q.slots|)
    ensures PoolMisses(q, asked) <= PoolMisses(p, asked)
    ensures forall page :: Resident(RunPools(p, asked).slots, page) ==> Resident(RunPools(q, asked).slots, page)
  {
    RunsRefine(p, asked);
    RunsRefine(q, asked);
    WideMisses(asked, |p.slots|, |q.slots|);
    forall page | Resident(RunPools(p, asked).slots, page) ensures Resident(RunPools(q, asked).slots, page) {
      WideInclusion(p, q, asked, page);
    }
  }

  /** Requests that lie in one chunk each are always in step, and the smaller tensor holds exactly the
    * most recent pages. */
  method LargerBudgetOneChunk(a: FileTensor, b: FileTensor, requests: seq<seq<Span>>) returns (failed: bool)
    requires a != b && Unused(a) && Unused(b) && a.g == b.g && |a.slots| <= |b.slots|
    requires forall k :: 0 <= k < |requests| ==> AllInFile(a.g, requests[k]) && |Union(a.g, requests[k])| == 1
    modifies a, b
    ensures !failed ==> b.counters.misses <= a.counters.misses
    ensures !failed ==> forall page :: Resident(a.slots, page) ==> Resident(b.slots, page)
    ensures !failed ==> forall page :: Resident(a.slots, page) <==>
              page in Firsts(Asked(a.g, requests)) && |Since(Firsts(Asked(a.g, requests)), page)| < |old(a.slots)|
  {
    ghost var p, asked := a.Mapping(), Asked(a.g, requests);
    SinglesInStep(asked, |a.slots|, |b.slots|);
    failed := LargerBudget(a, b, requests);
    SinglesRun(p, asked);
    forall page ensures Resident(RunPool(p, Firsts(asked)).slots, page) <==>
                          page in Firsts(asked) && |Since(Firsts(asked), page)| < |p.slots|
    {
      ResidentIffRecent(p, Firsts(asked), page);
    }
  }
}
