/** Requests of several pages: what one does to the recency list, and exactly when a larger pool stays
  * ahead of a smaller one. */
module Batches {
  import opened Residency
  import opened Budget

  /** The list without the pages in `gone`. */
  function Without(list: seq<nat>, gone: set<nat>): seq<nat> {
    if list == [] then []
    else Without(list[..|list| - 1], gone) + if list[|list| - 1] in gone then [] else [list[|list| - 1]]
  }

  /** The pages of a request that are in the list, in request order. */
  function Hits(list: seq<nat>, pages: seq<nat>): seq<nat> {
    if pages == [] then []
    else Hits(list, pages[..|pages| - 1]) + if pages[|pages| - 1] in list then [pages[|pages| - 1]] else []
  }

  /** The order in which a request stamps its pages: those that are resident, then the rest. */
  function Order(list: seq<nat>, pages: seq<nat>): seq<nat> {
    Hits(list, pages) + Absent(list, pages)
  }

  lemma {:induction false} WithoutElements(list: seq<nat>, gone: set<nat>)
    ensures forall q :: q in Without(list, gone) <==> q in list && q !in gone
    ensures Distinct(list) ==> Distinct(Without(list, gone))
    ensures |Without(list, gone)| <= |list|
  {
    if list != [] {
      var init := list[..|list| - 1];
      assert list == init + [list[|list| - 1]];
      WithoutElements(init, gone);
    }
  }

  lemma {:induction false} WithoutConcat(a: seq<nat>, b: seq<nat>, gone: set<nat>)
    ensures Without(a + b, gone) == Without(a, gone) + Without(b, gone)
  {
    if b == [] {
      assert a + b == a;
    } else {
      assert (a + b)[..|a + b| - 1] == a + b[..|b| - 1];
      WithoutConcat(a, b[..|b| - 1], gone);
    }
  }

  lemma {:induction false} WithoutNone(list: seq<nat>, gone: set<nat>)
    requires forall q :: q in list ==> q !in gone
    ensures Without(list, gone) == list
  {
    if list != [] {
      WithoutNone(list[..|list| - 1], gone);
    }
  }

  lemma {:induction false} WithoutTwice(list: seq<nat>, gone: set<nat>, page: nat, all: set<nat>)
    requires all == gone + {page}
    ensures Without(Without(list, gone), {page}) == Without(list, all)
  {
    if list != [] {
      var init, last := list[..|list| - 1], list[|list| - 1];
      WithoutTwice(init, gone, page, all);
      WithoutConcat(Without(init, gone), if last in gone then [] else [last], {page});
    }
  }

  lemma WithoutMiddle(a: seq<nat>, page: nat, b: seq<nat>)
    requires page !in a && page !in b
    ensures Without(a + [page] + b, {page}) == a + b
  {
    WithoutConcat(a + [page], b, {page});
    WithoutLast(a, page);
    WithoutNone(a, {page});
    WithoutNone(b, {page});
  }

  lemma WithoutLast(a: seq<nat>, page: nat)
    ensures Without(a + [page], {page}) == Without(a, {page})
  {
    assert (a + [page])[..|a|] == a;
  }

  /** Touching a page takes it out of the list and puts it at the back. */
  lemma TouchForm(list: seq<nat>, page: nat)
    requires Distinct(list) && page in list
    ensures Touch(list, page) == Without(list, {page}) + [page]
  {
    var k := Index(list, page);
    assert list == list[..k] + [page] + list[k + 1..];
    WithoutMiddle(list[..k], page, list[k + 1..]);
  }

  lemma MovedElements(list: seq<nat>, page: nat)
    requires Distinct(list) && page in list
    ensures Distinct(Touch(list, page)) && forall q :: q in Touch(list, page) <==> q in list
  {
    DropElements(list, Index(list, page));
  }

  /** All the hits of a request move to the back, in request order. */
  lemma {:induction false} TouchAllForm(list: seq<nat>, pages: seq<nat>)
    requires Distinct(list) && Distinct(pages)
    ensures TouchAll(list, pages) == Without(list, Elements(pages)) + Hits(list, pages)
    ensures Distinct(TouchAll(list, pages)) && forall q :: q in TouchAll(list, pages) <==> q in list
  {
    if pages == [] {
      WithoutNone(list, {});
      assert Elements(pages) == {};
    } else {
      var init, last := pages[..|pages| - 1], pages[|pages| - 1];
      assert pages == init + [last] && Elements(pages) == Elements(init) + {last};
      TouchAllForm(list, init);
      HitsElements(list, init);
      if last in list {
        MovedElements(TouchAll(list, init), last);
        TouchHit(Without(list, Elements(init)), Hits(list, init), last);
        WithoutTwice(list, Elements(init), last, Elements(pages));
        Associative(Without(list, Elements(pages)), Hits(list, init), [last]);
      } else {
        NeverThere(list, Elements(init), last, Elements(pages));
      }
    }
  }

  lemma TouchHit(rest: seq<nat>, hits: seq<nat>, last: nat)
    requires Distinct(rest + hits) && last in rest + hits && last !in hits
    ensures Touch(rest + hits, last) == Without(rest, {last}) + hits + [last]
  {
    TouchForm(rest + hits, last);
    WithoutConcat(rest, hits, {last});
    WithoutNone(hits, {last});
  }

  lemma {:induction false} NeverThere(list: seq<nat>, gone: set<nat>, page: nat, all: set<nat>)
    requires page !in list && all == gone + {page}
    ensures Without(list, all) == Without(list, gone)
  {
    if list != [] {
      var init := list[..|list| - 1];
      assert list == init + [list[|list| - 1]];
      NeverThere(init, gone, page, all);
    }
  }

  lemma {:induction false} HitsElements(list: seq<nat>, pages: seq<nat>)
    ensures forall q :: q in Hits(list, pages) <==> q in list && q in pages
    ensures forall q :: q in Absent(list, pages) <==> q !in list && q in pages
    ensures |Order(list, pages)| == |pages|
  {
    if pages != [] {
      var init := pages[..|pages| - 1];
      assert pages == init + [pages[|pages| - 1]];
      HitsElements(list, init);
    }
  }

  /** The missing pages take the places of the oldest pages outside the request, as far as needed. */
  lemma {:induction false} PlaceAllForm(rest: seq<nat>, hits: seq<nat>, absent: seq<nat>, required: set<nat>, capacity: nat)
    requires forall q :: q in rest ==> q !in required
    requires forall q :: q in hits + absent ==> q in required
    requires |rest| + |hits| <= capacity && |hits| + |absent| <= capacity
    ensures PlaceAll(rest + hits, absent, required, capacity) == Suffix(rest, capacity - |hits| - |absent|) + hits + absent
  {
    if absent == [] {
      assert Suffix(rest, capacity - |hits|) == rest;
    } else {
      var init, last := absent[..|absent| - 1], absent[|absent| - 1];
      assert absent == init + [last];
      PlaceAllForm(rest, hits, init, required, capacity);
      PlaceMore(Suffix(rest, capacity - |hits| - |init|), hits + init, last, required, capacity);
      SuffixShorter(rest, capacity - |hits| - |init|);
      Associative(Suffix(rest, capacity - |hits| - |init|), hits, init);
      Associative(hits, init, [last]);
      Associative(Suffix(rest, capacity - |hits| - |absent|), hits, absent);
    }
  }

  lemma PlaceMore(rest: seq<nat>, kept: seq<nat>, last: nat, required: set<nat>, capacity: nat)
    requires (forall q :: q in rest ==> q !in required) && (forall q :: q in kept ==> q in required)
    requires |rest| + |kept| <= capacity && |kept| < capacity
    ensures Place(rest + kept, last, required, capacity) ==
              (if |rest| + |kept| < capacity then rest else rest[1..]) + (kept + [last])
  {
    var list := rest + kept;
    if |list| >= capacity {
      assert list[0] == rest[0] && rest[0] in rest;
      assert list[0] in list && list[0] !in required;
      assert Oldest(list, required) == 0;
      assert Drop(list, 0) == rest[1..] + kept;
    }
  }

  lemma SuffixShorter(list: seq<nat>, n: nat)
    requires n > 0
    ensures Suffix(list, n - 1) == if |Suffix(list, n)| < n then Suffix(list, n) else Suffix(list, n)[1..]
  {
  }

  /** One whole request, in one piece: the youngest pages outside it that there is room for, then its
    * own pages, hits before misses. */
  lemma ServeForm(list: seq<nat>, pages: seq<nat>, capacity: nat)
    requires Distinct(list) && Distinct(pages) && |list| <= capacity && |pages| <= capacity
    ensures Serve(list, pages, capacity) ==
              Suffix(Without(list, Elements(pages)), capacity - |pages|) + Order(list, pages)
  {
    var rest, hits, absent := Without(list, Elements(pages)), Hits(list, pages), Absent(list, pages);
    TouchAllForm(list, pages);
    WithoutElements(list, Elements(pages));
    HitsElements(list, pages);
    TouchLength(list, pages);
    PlaceAllForm(rest, hits, absent, Elements(pages), capacity);
    Associative(Suffix(rest, capacity - |pages|), hits, absent);
  }

  lemma TouchLength(list: seq<nat>, pages: seq<nat>)
    requires Distinct(list) && Distinct(pages)
    ensures |Without(list, Elements(pages))| + |Hits(list, pages)| == |list|
  {
    TouchAllForm(list, pages);
    DistinctCount(list);
    DistinctCount(TouchAll(list, pages));
    assert Elements(TouchAll(list, pages)) == Elements(list);
  }

  // ----- Two pools -----

  predicate EndsWith(list: seq<nat>, end: seq<nat>) {
    |end| <= |list| && list[|list| - |end|..] == end
  }

  lemma SuffixesNest(a: seq<nat>, b: seq<nat>, n: nat, m: nat)
    requires EndsWith(b, a) && n <= m
    ensures EndsWith(Suffix(b, m), Suffix(a, n))
  {
  }

  lemma WithoutEnds(large: seq<nat>, small: seq<nat>, gone: set<nat>)
    requires EndsWith(large, small)
    ensures EndsWith(Without(large, gone), Without(small, gone))
  {
    var older := large[..|large| - |small|];
    assert large == older + small;
    WithoutConcat(older, small, gone);
  }

  lemma SameEnds(a: seq<nat>, b: seq<nat>, x: seq<nat>, y: seq<nat>)
    requires EndsWith(b, a) && |x| == |y|
    ensures EndsWith(b + y, a + x) <==> x == y
  {
    var s, l := a + x, b + y;
    if EndsWith(l, s) {
      forall i | 0 <= i < |x| ensures x[i] == y[i] {
        assert s[|a| + i] == l[|l| - |s|..][|a| + i];
      }
    }
    if x == y {
      assert l[|l| - |s|..] == b[|b| - |a|..] + y;
    }
  }

  /** While the smaller pool holds the youngest pages of the larger, a request keeps it so if and only
    * if both stamp its pages in the same order. */
  lemma StaysBehind(small: seq<nat>, large: seq<nat>, pages: seq<nat>, n: nat, m: nat)
    requires Distinct(large) && Distinct(pages) && EndsWith(large, small)
    requires |small| <= n <= m && |large| <= m && |pages| <= n
    ensures EndsWith(Serve(large, pages, m), Serve(small, pages, n)) <==> Order(small, pages) == Order(large, pages)
  {
    assert large == large[..|large| - |small|] + small;
    DistinctParts(large[..|large| - |small|], small);
    ServeForm(small, pages, n);
    ServeForm(large, pages, m);
    WithoutEnds(large, small, Elements(pages));
    SuffixesNest(Without(small, Elements(pages)), Without(large, Elements(pages)), n - |pages|, m - |pages|);
    HitsElements(small, pages);
    HitsElements(large, pages);
    SameEnds(Suffix(Without(small, Elements(pages)), n - |pages|), Suffix(Without(large, Elements(pages)), m - |pages|),
             Order(small, pages), Order(large, pages));
  }

  // ----- Runs -----

  /** Requests that a pool of `n` slots accepts. */
  predicate Fit(requests: seq<seq<nat>>, n: nat) {
    forall k :: 0 <= k < |requests| ==> Distinct(requests[k]) && |requests[k]| <= n
  }

  ghost predicate Empty(p: Pool) {
    PoolOk(p) && |p.slots| > 0 && forall i :: 0 <= i < |p.slots| ==> !p.slots[i].mapped
  }

  ghost function RunPools(p: Pool, requests: seq<seq<nat>>): Pool {
    if requests == [] then p else Request(RunPools(p, requests[..|requests| - 1]), requests[|requests| - 1])
  }

  /** The pages resident after the run. */
  ghost function Held(p: Pool, requests: seq<seq<nat>>): set<nat> {
    PagesOf(RunPools(p, requests).slots)
  }

  lemma HeldIsResident(p: Pool, requests: seq<seq<nat>>, page: nat)
    ensures page in Held(p, requests) <==> Resident(RunPools(p, requests).slots, page)
  {
    var slots := RunPools(p, requests).slots;
    if page in Held(p, requests) {
      var i: nat :| i < |slots| && slots[i].mapped && slots[i].page == page;
      assert Holds(slots, i, page);
    }
  }

  /** How many pages the run loads. */
  ghost function PoolMisses(p: Pool, requests: seq<seq<nat>>): nat {
    if requests == [] then 0 else
      var init := requests[..|requests| - 1];
      PoolMisses(p, init) + |Missing(RunPools(p, init).slots, requests[|requests| - 1])|
  }

  ghost function RunLists(requests: seq<seq<nat>>, n: nat): seq<nat> {
    if requests == [] then [] else Serve(RunLists(requests[..|requests| - 1], n), requests[|requests| - 1], n)
  }

  ghost function ListMisses(requests: seq<seq<nat>>, n: nat): nat {
    if requests == [] then 0 else
      var init := requests[..|requests| - 1];
      ListMisses(init, n) + |Absent(RunLists(init, n), requests[|requests| - 1])|
  }

  lemma {:induction false} RunsRefine(p: Pool, requests: seq<seq<nat>>)
    requires Empty(p) && Fit(requests, |p.slots|)
    ensures PoolOk(RunPools(p, requests)) && |RunPools(p, requests).slots| == |p.slots|
    ensures Orders(RunPools(p, requests).slots, RunLists(requests, |p.slots|))
    ensures PoolMisses(p, requests) == ListMisses(requests, |p.slots|)
  {
    if requests != [] {
      var init, last := requests[..|requests| - 1], requests[|requests| - 1];
      RunsRefine(p, init);
      RequestKeeps(RunPools(p, init), last);
      RequestRefines(RunPools(p, init), RunLists(init, |p.slots|), last);
      MissingIsAbsent(RunPools(p, init).slots, RunLists(init, |p.slots|), last);
    }
  }

  lemma ListsFit(requests: seq<seq<nat>>, n: nat)
    requires Fit(requests, n) && n > 0
    ensures Distinct(RunLists(requests, n)) && |RunLists(requests, n)| <= n
  {
    var p := Pool(seq(n, _ => Slot(0, 0, false)), 0);
    RunsRefine(p, requests);
    OrdersDistinct(RunPools(p, requests), RunLists(requests, n));
  }

  /** Both pools stamp the pages of every request in the same order. */
  ghost predicate InStep(requests: seq<seq<nat>>, n: nat, m: nat) {
    forall k :: 0 <= k < |requests| ==> SameOrder(requests[..k], requests[k], n, m)
  }

  ghost predicate SameOrder(before: seq<seq<nat>>, pages: seq<nat>, n: nat, m: nat) {
    Order(RunLists(before, n), pages) == Order(RunLists(before, m), pages)
  }

  ghost predicate Behind(requests: seq<seq<nat>>, n: nat, m: nat) {
    EndsWith(RunLists(requests, m), RunLists(requests, n))
  }

  lemma NextStep(requests: seq<seq<nat>>, k: nat, n: nat, m: nat)
    requires k < |requests| && Fit(requests, n) && 0 < n <= m && Behind(requests[..k], n, m)
    ensures Behind(requests[..k + 1], n, m) <==> SameOrder(requests[..k], requests[k], n, m)
  {
    var next := requests[..k + 1];
    assert next[..|next| - 1] == requests[..k] && next[|next| - 1] == requests[k];
    ListsFit(requests[..k], n);
    ListsFit(requests[..k], m);
    StaysBehind(RunLists(requests[..k], n), RunLists(requests[..k], m), requests[k], n, m);
  }

  lemma {:induction false} BehindUpTo(requests: seq<seq<nat>>, k: nat, n: nat, m: nat)
    requires k <= |requests| && Fit(requests, n) && 0 < n <= m && InStep(requests, n, m)
    ensures Behind(requests[..k], n, m)
  {
    if k > 0 {
      BehindUpTo(requests, k - 1, n, m);
      NextStep(requests, k - 1, n, m);
      assert SameOrder(requests[..k - 1], requests[k - 1], n, m);
    }
  }

  /** The smaller pool holds the youngest pages of the larger all along the run if and only if both
    * stamp the pages of every request in the same order. */
  lemma BehindAllAlong(requests: seq<seq<nat>>, n: nat, m: nat)
    requires Fit(requests, n) && 0 < n <= m
    ensures InStep(requests, n, m) <==> forall k :: 0 <= k <= |requests| ==> Behind(requests[..k], n, m)
  {
    if InStep(requests, n, m) {
      forall k | 0 <= k <= |requests| ensures Behind(requests[..k], n, m) {
        BehindUpTo(requests, k, n, m);
      }
    }
    if forall k :: 0 <= k <= |requests| ==> Behind(requests[..k], n, m) {
      forall k | 0 <= k < |requests| ensures SameOrder(requests[..k], requests[k], n, m) {
        assert Behind(requests[..k], n, m) && Behind(requests[..k + 1], n, m);
        NextStep(requests, k, n, m);
      }
    }
  }

  /** On such runs a larger pool holds every page of a smaller one. */
  lemma WideInclusion(p: Pool, q: Pool, requests: seq<seq<nat>>, page: nat)
    requires Empty(p) && Empty(q) && |p.slots| <= |q.slots|
    requires Fit(requests, |p.slots|) && InStep(requests, |p.slots|, |q.slots|)
    requires Resident(RunPools(p, requests).slots, page)
    ensures Resident(RunPools(q, requests).slots, page)
  {
    var n, m := |p.slots|, |q.slots|;
    RunsRefine(p, requests);
    RunsRefine(q, requests);
    BehindUpTo(requests, |requests|, n, m);
    assert requests[..|requests|] == requests;
    EndIsIn(RunLists(requests, m), RunLists(requests, n), page);
  }

  lemma EndIsIn(large: seq<nat>, small: seq<nat>, page: nat)
    requires EndsWith(large, small) && page in small
    ensures page in large
  {
    var i :| 0 <= i < |small| && small[i] == page;
    assert large[|large| - |small|..][i] == page;
  }

  /** And it misses no more. */
  lemma {:induction false} WideMisses(requests: seq<seq<nat>>, n: nat, m: nat)
    requires Fit(requests, n) && 0 < n <= m && InStep(requests, n, m)
    ensures ListMisses(requests, m) <= ListMisses(requests, n)
  {
    if requests != [] {
      var init, last := requests[..|requests| - 1], requests[|requests| - 1];
      forall k | 0 <= k < |init| ensures SameOrder(init[..k], init[k], n, m) {
        assert init[..k] == requests[..k] && SameOrder(requests[..k], requests[k], n, m);
      }
      WideMisses(init, n, m);
      BehindUpTo(init, |init|, n, m);
      assert init[..|init|] == init;
      FewerAbsent(RunLists(init, n), RunLists(init, m), last);
    }
  }

  lemma {:induction false} FewerAbsent(small: seq<nat>, large: seq<nat>, pages: seq<nat>)
    requires EndsWith(large, small)
    ensures |Absent(large, pages)| <= |Absent(small, pages)|
  {
    if pages != [] {
      FewerAbsent(small, large, pages[..|pages| - 1]);
      var last := pages[|pages| - 1];
      if last in small {
        EndIsIn(large, small, last);
      }
    }
  }

  /** Requests of one page each keep any two pools in step. */
  lemma SinglesInStep(requests: seq<seq<nat>>, n: nat, m: nat)
    requires forall k :: 0 <= k < |requests| ==> |requests[k]| == 1
    ensures InStep(requests, n, m)
  {
    forall k | 0 <= k < |requests| ensures SameOrder(requests[..k], requests[k], n, m) {
      OrderOfOne(RunLists(requests[..k], n), requests[k]);
      OrderOfOne(RunLists(requests[..k], m), requests[k]);
    }
  }

  lemma OrderOfOne(list: seq<nat>, pages: seq<nat>)
    requires |pages| == 1
    ensures Order(list, pages) == pages
  {
    assert pages[..0] == [] && pages == [pages[0]];
    assert Hits(list, pages) == Hits(list, []) + if pages[0] in list then [pages[0]] else [];
    assert Absent(list, pages) == Absent(list, []) + if pages[0] in list then [] else [pages[0]];
  }

  /** The pages of requests of one page each. */
  function Firsts(requests: seq<seq<nat>>): (trace: seq<nat>)
    requires forall k :: 0 <= k < |requests| ==> |requests[k]| == 1
    ensures |trace| == |requests|
  {
    seq(|requests|, k requires 0 <= k < |requests| => requests[k][0])
  }

  /** On such requests the runs of this module are those of one page after the other. */
  lemma {:induction false} SinglesRun(p: Pool, requests: seq<seq<nat>>)
    requires forall k :: 0 <= k < |requests| ==> |requests[k]| == 1
    ensures RunPools(p, requests) == RunPool(p, Firsts(requests))
  {
    if requests != [] {
      var init, last := requests[..|requests| - 1], requests[|requests| - 1];
      SinglesRun(p, init);
      assert Firsts(requests)[..|requests| - 1] == Firsts(init);
      assert last == [last[0]];
    }
  }
}
