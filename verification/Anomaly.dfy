/** Where a larger budget loses: a run of requests of several pages, computed for five and for six slots. */
module Anomaly {
  import opened Residency
  import opened Budget
  import opened Batches

  // ----- The recency list as a datatype, on which runs can be computed -----

  datatype List = Nil | Cons(head: nat, tail: List)

  datatype Run = Done | Then(request: List, rest: Run)

  datatype Result = Result(list: List, misses: nat)

  function In(page: nat, l: List): bool {
    l.Cons? && (l.head == page || In(page, l.tail))
  }

  function Length(l: List): nat {
    if l.Nil? then 0 else 1 + Length(l.tail)
  }

  function Append(a: List, b: List): List {
    if a.Nil? then b else Cons(a.head, Append(a.tail, b))
  }

  /** The elements of `l` that are in `of`, or those that are not. */
  function Pick(l: List, of: List, those: bool): List {
    if l.Nil? then Nil
    else if In(l.head, of) == those then Cons(l.head, Pick(l.tail, of, those))
    else Pick(l.tail, of, those)
  }

  function Skip(l: List, n: nat): List {
    if l.Nil? || n == 0 then l else Skip(l.tail, n - 1)
  }

  function LastOf(l: List, n: nat): List {
    if Length(l) <= n then l else Skip(l, Length(l) - n)
  }

  /** One request: the youngest others that there is room for, its hits, its misses. */
  function Step(r: Result, request: List, n: nat): Result {
    var missing := Pick(request, r.list, false);
    var older := LastOf(Pick(r.list, request, false), if n < Length(request) then 0 else n - Length(request));
    Result(Append(older, Append(Pick(request, r.list, true), missing)), r.misses + Length(missing))
  }

  function Compute(r: Result, run: Run, n: nat): Result
    decreases run
  {
    if run.Done? then r else Compute(Step(r, run.request, n), run.rest, n)
  }

  function AllDistinct(l: List): bool {
    l.Cons? ==> !In(l.head, l.tail) && AllDistinct(l.tail)
  }

  function Fits(run: Run, n: nat): bool {
    run.Then? ==> AllDistinct(run.request) && Length(run.request) <= n && Fits(run.rest, n)
  }

  // ----- It computes what the pools do -----

  function Seq(l: List): seq<nat> {
    if l.Nil? then [] else [l.head] + Seq(l.tail)
  }

  function Requests(run: Run): seq<seq<nat>> {
    if run.Done? then [] else [Seq(run.request)] + Requests(run.rest)
  }

  lemma {:induction false} SeqMeans(l: List)
    ensures |Seq(l)| == Length(l) && (forall q: nat :: q in Seq(l) <==> In(q, l))
    ensures AllDistinct(l) <==> Distinct(Seq(l))
  {
    if l.Cons? {
      SeqMeans(l.tail);
      DistinctCons(l.head, Seq(l.tail));
    }
  }

  lemma DistinctCons(x: nat, s: seq<nat>)
    ensures Distinct([x] + s) <==> x !in s && Distinct(s)
  {
    var longer := [x] + s;
    assert forall i :: 0 <= i < |s| ==> longer[i + 1] == s[i];
    if Distinct(longer) {
      forall i, j | 0 <= i < j < |s| ensures s[i] != s[j] {
        assert longer[i + 1] != longer[j + 1];
      }
      forall i | 0 <= i < |s| ensures s[i] != x {
        assert longer[0] != longer[i + 1];
      }
    }
  }

  lemma {:induction false} SeqAppend(a: List, b: List)
    ensures Seq(Append(a, b)) == Seq(a) + Seq(b)
  {
    if a.Cons? {
      SeqAppend(a.tail, b);
    }
  }

  lemma {:induction false} SeqSkip(l: List, n: nat)
    requires n <= |Seq(l)|
    ensures Seq(Skip(l, n)) == Seq(l)[n..]
  {
    if l.Cons? && n > 0 {
      SeqSkip(l.tail, n - 1);
    }
  }

  lemma SeqLast(l: List, n: nat)
    ensures Seq(LastOf(l, n)) == Suffix(Seq(l), n)
  {
    SeqMeans(l);
    if Length(l) > n {
      SeqSkip(l, Length(l) - n);
    }
  }

  lemma {:induction false} SeqWithout(l: List, of: List)
    ensures Seq(Pick(l, of, false)) == Without(Seq(l), Elements(Seq(of)))
  {
    if l.Cons? {
      SeqMeans(of);
      SeqWithout(l.tail, of);
      WithoutConcat([l.head], Seq(l.tail), Elements(Seq(of)));
      assert [l.head][..0] == [];
    }
  }

  lemma {:induction false} HitsConcat(list: seq<nat>, a: seq<nat>, b: seq<nat>)
    ensures Hits(list, a + b) == Hits(list, a) + Hits(list, b)
    ensures Absent(list, a + b) == Absent(list, a) + Absent(list, b)
  {
    if b == [] {
      assert a + b == a;
    } else {
      assert (a + b)[..|a + b| - 1] == a + b[..|b| - 1];
      HitsConcat(list, a, b[..|b| - 1]);
    }
  }

  lemma {:induction false} SeqOrder(l: List, of: List)
    ensures Seq(Pick(l, of, true)) == Hits(Seq(of), Seq(l))
    ensures Seq(Pick(l, of, false)) == Absent(Seq(of), Seq(l))
  {
    if l.Cons? {
      SeqMeans(of);
      SeqOrder(l.tail, of);
      HitsConcat(Seq(of), [l.head], Seq(l.tail));
      HitsOne(Seq(of), l.head);
    }
  }

  lemma HitsOne(list: seq<nat>, page: nat)
    ensures Hits(list, [page]) == if page in list then [page] else []
    ensures Absent(list, [page]) == if page in list then [] else [page]
  {
    assert [page][..0] == [];
  }

  /** The computation is in the state that the requests `done` have led to. */
  ghost predicate At(r: Result, done: seq<seq<nat>>, n: nat) {
    Fit(done, n) && Seq(r.list) == RunLists(done, n) && r.misses == ListMisses(done, n)
  }

  lemma StepIsServe(r: Result, request: List, n: nat, done: seq<seq<nat>>, next: seq<seq<nat>>)
    requires n > 0 && At(r, done, n) && AllDistinct(request) && Length(request) <= n && next == done + [Seq(request)]
    ensures At(Step(r, request, n), next, n)
  {
    var pages, list := Seq(request), RunLists(done, n);
    assert next[..|next| - 1] == done && next[|next| - 1] == pages;
    SeqMeans(request);
    ListsFit(done, n);
    ServeForm(list, pages, n);
    StepForm(r, request, n, list, pages);
  }

  lemma StepForm(r: Result, request: List, n: nat, list: seq<nat>, pages: seq<nat>)
    requires Length(request) <= n && |pages| == Length(request) && list == Seq(r.list) && pages == Seq(request)
    ensures Seq(Step(r, request, n).list) == Suffix(Without(list, Elements(pages)), n - |pages|) + Order(list, pages)
    ensures Step(r, request, n).misses == r.misses + |Absent(list, pages)|
  {
    var missing, hits := Pick(request, r.list, false), Pick(request, r.list, true);
    var older := LastOf(Pick(r.list, request, false), n - Length(request));
    SeqOrder(request, r.list);
    SeqWithout(r.list, request);
    SeqLast(Pick(r.list, request, false), n - Length(request));
    SeqMeans(missing);
    SeqAppend(hits, missing);
    SeqAppend(older, Append(hits, missing));
  }

  lemma {:induction false} ComputeFrom(r: Result, run: Run, n: nat, done: seq<seq<nat>>, all: seq<seq<nat>>)
    requires n > 0 && Fits(run, n) && At(r, done, n) && all == done + Requests(run)
    ensures At(Compute(r, run, n), all, n)
    decreases run
  {
    if run.Done? {
      assert all == done;
    } else {
      var next := done + [Seq(run.request)];
      assert all == next + Requests(run.rest);
      StepIsServe(r, run.request, n, done, next);
      ComputeFrom(Step(r, run.request, n), run.rest, n, next, all);
    }
  }

  /** A run on an empty pool, computed. */
  lemma Computes(p: Pool, run: Run, requests: seq<seq<nat>>, r: Result)
    requires Empty(p) && Fits(run, |p.slots|) && requests == Requests(run) && r == Compute(Result(Nil, 0), run, |p.slots|)
    ensures Fit(requests, |p.slots|) && PoolMisses(p, requests) == r.misses
    ensures forall q: nat :: Resident(RunPools(p, requests).slots, q) <==> In(q, r.list)
  {
    ComputeFrom(Result(Nil, 0), run, |p.slots|, [], requests);
    RunsRefine(p, requests);
    SeqMeans(r.list);
  }

  /** One step, given the parts that the request splits the list and itself into. */
  lemma StepIs(list: List, request: List, others: List, hits: List, missing: List, misses: nat, n: nat, after: List)
    requires Pick(list, request, false) == others && Pick(request, list, true) == hits && Pick(request, list, false) == missing
    requires Length(request) <= n
    requires after == Append(LastOf(others, n - Length(request)), Append(hits, missing))
    ensures Step(Result(list, misses), request, n) == Result(after, misses + Length(missing))
  {
  }

  lemma Onward(r: Result, request: List, rest: Run, n: nat, r': Result)
    requires Step(r, request, n) == r'
    ensures Compute(r, Then(request, rest), n) == Compute(r', rest, n)
  {
  }

  function L1(a: nat): List {
    Cons(a, Nil)
  }

  function L2(a: nat, b: nat): List {
    Cons(a, Cons(b, Nil))
  }

  function L3(a: nat, b: nat, c: nat): List {
    Cons(a, Cons(b, Cons(c, Nil)))
  }

  function L4(a: nat, b: nat, c: nat, d: nat): List {
    Cons(a, Cons(b, Cons(c, Cons(d, Nil))))
  }

  function L5(a: nat, b: nat, c: nat, d: nat, e: nat): List {
    Cons(a, Cons(b, Cons(c, Cons(d, Cons(e, Nil)))))
  }

  function L6(a: nat, b: nat, c: nat, d: nat, e: nat, f: nat): List {
    Cons(a, Cons(b, Cons(c, Cons(d, Cons(e, Cons(f, Nil))))))
  }

  lemma {:induction false} FitsMore(run: Run, n: nat, m: nat)
    requires Fits(run, n) && n <= m
    ensures Fits(run, m)
    decreases run
  {
    if run.Then? {
      FitsMore(run.rest, n, m);
    }
  }

  // ----- Eleven requests, in five slots and in six -----

  /** Eleven requests, each for a whole range of the file. */
  function ElevenRequests(end: Run): Run {
    Then(L5(1, 2, 3, 4, 5), Then(L1(0), Then(L5(1, 2, 3, 4, 5), Then(L2(6, 7), Then(L5(0, 1, 2, 3, 4),
    Then(L1(5), Then(L2(6, 7), Then(L5(2, 3, 4, 5, 6), Then(L2(0, 1), Then(L1(4), Then(L1(5), end)))))))))))
  }

  lemma Five1()
    ensures Step(Result(Nil, 0), L5(1, 2, 3, 4, 5), 5) == Result(L5(1, 2, 3, 4, 5), 5)
  {
    StepIs(Nil, L5(1, 2, 3, 4, 5), Nil, Nil, L5(1, 2, 3, 4, 5), 0, 5, L5(1, 2, 3, 4, 5));
  }

  lemma Five2()
    ensures Step(Result(L5(1, 2, 3, 4, 5), 5), L1(0), 5) == Result(L5(2, 3, 4, 5, 0), 6)
  {
    StepIs(L5(1, 2, 3, 4, 5), L1(0), L5(1, 2, 3, 4, 5), Nil, L1(0), 5, 5, L5(2, 3, 4, 5, 0));
  }

  lemma Five3()
    ensures Step(Result(L5(2, 3, 4, 5, 0), 6), L5(1, 2, 3, 4, 5), 5) == Result(L5(2, 3, 4, 5, 1), 7)
  {
    StepIs(L5(2, 3, 4, 5, 0), L5(1, 2, 3, 4, 5), L1(0), L4(2, 3, 4, 5), L1(1), 6, 5, L5(2, 3, 4, 5, 1));
  }

  lemma Five4()
    ensures Step(Result(L5(2, 3, 4, 5, 1), 7), L2(6, 7), 5) == Result(L5(4, 5, 1, 6, 7), 9)
  {
    StepIs(L5(2, 3, 4, 5, 1), L2(6, 7), L5(2, 3, 4, 5, 1), Nil, L2(6, 7), 7, 5, L5(4, 5, 1, 6, 7));
  }

  lemma Five5()
    ensures Step(Result(L5(4, 5, 1, 6, 7), 9), L5(0, 1, 2, 3, 4), 5) == Result(L5(1, 4, 0, 2, 3), 12)
  {
    StepIs(L5(4, 5, 1, 6, 7), L5(0, 1, 2, 3, 4), L3(5, 6, 7), L2(1, 4), L3(0, 2, 3), 9, 5, L5(1, 4, 0, 2, 3));
  }

  lemma Five6()
    ensures Step(Result(L5(1, 4, 0, 2, 3), 12), L1(5), 5) == Result(L5(4, 0, 2, 3, 5), 13)
  {
    StepIs(L5(1, 4, 0, 2, 3), L1(5), L5(1, 4, 0, 2, 3), Nil, L1(5), 12, 5, L5(4, 0, 2, 3, 5));
  }

  lemma Five7()
    ensures Step(Result(L5(4, 0, 2, 3, 5), 13), L2(6, 7), 5) == Result(L5(2, 3, 5, 6, 7), 15)
  {
    StepIs(L5(4, 0, 2, 3, 5), L2(6, 7), L5(4, 0, 2, 3, 5), Nil, L2(6, 7), 13, 5, L5(2, 3, 5, 6, 7));
  }

  lemma Five8()
    ensures Step(Result(L5(2, 3, 5, 6, 7), 15), L5(2, 3, 4, 5, 6), 5) == Result(L5(2, 3, 5, 6, 4), 16)
  {
    StepIs(L5(2, 3, 5, 6, 7), L5(2, 3, 4, 5, 6), L1(7), L4(2, 3, 5, 6), L1(4), 15, 5, L5(2, 3, 5, 6, 4));
  }

  lemma Five9()
    ensures Step(Result(L5(2, 3, 5, 6, 4), 16), L2(0, 1), 5) == Result(L5(5, 6, 4, 0, 1), 18)
  {
    StepIs(L5(2, 3, 5, 6, 4), L2(0, 1), L5(2, 3, 5, 6, 4), Nil, L2(0, 1), 16, 5, L5(5, 6, 4, 0, 1));
  }

  lemma Five10()
    ensures Step(Result(L5(5, 6, 4, 0, 1), 18), L1(4), 5) == Result(L5(5, 6, 0, 1, 4), 18)
  {
    StepIs(L5(5, 6, 4, 0, 1), L1(4), L4(5, 6, 0, 1), L1(4), Nil, 18, 5, L5(5, 6, 0, 1, 4));
  }

  lemma Five11()
    ensures Step(Result(L5(5, 6, 0, 1, 4), 18), L1(5), 5) == Result(L5(6, 0, 1, 4, 5), 18)
  {
    StepIs(L5(5, 6, 0, 1, 4), L1(5), L4(6, 0, 1, 4), L1(5), Nil, 18, 5, L5(6, 0, 1, 4, 5));
  }

  lemma FiveSlots(end: Run)
    requires end == Done
    ensures Compute(Result(Nil, 0), ElevenRequests(end), 5) == Result(L5(6, 0, 1, 4, 5), 18)
  {
    var rest10 := Then(L1(5), end);
    var rest9 := Then(L1(4), rest10);
    var rest8 := Then(L2(0, 1), rest9);
    var rest7 := Then(L5(2, 3, 4, 5, 6), rest8);
    var rest6 := Then(L2(6, 7), rest7);
    var rest5 := Then(L1(5), rest6);
    var rest4 := Then(L5(0, 1, 2, 3, 4), rest5);
    var rest3 := Then(L2(6, 7), rest4);
    var rest2 := Then(L5(1, 2, 3, 4, 5), rest3);
    var rest1 := Then(L1(0), rest2);
    Five1();
    Onward(Result(Nil, 0), L5(1, 2, 3, 4, 5), rest1, 5, Result(L5(1, 2, 3, 4, 5), 5));
    Five2();
    Onward(Result(L5(1, 2, 3, 4, 5), 5), L1(0), rest2, 5, Result(L5(2, 3, 4, 5, 0), 6));
    Five3();
    Onward(Result(L5(2, 3, 4, 5, 0), 6), L5(1, 2, 3, 4, 5), rest3, 5, Result(L5(2, 3, 4, 5, 1), 7));
    Five4();
    Onward(Result(L5(2, 3, 4, 5, 1), 7), L2(6, 7), rest4, 5, Result(L5(4, 5, 1, 6, 7), 9));
    Five5();
    Onward(Result(L5(4, 5, 1, 6, 7), 9), L5(0, 1, 2, 3, 4), rest5, 5, Result(L5(1, 4, 0, 2, 3), 12));
    Five6();
    Onward(Result(L5(1, 4, 0, 2, 3), 12), L1(5), rest6, 5, Result(L5(4, 0, 2, 3, 5), 13));
    Five7();
    Onward(Result(L5(4, 0, 2, 3, 5), 13), L2(6, 7), rest7, 5, Result(L5(2, 3, 5, 6, 7), 15));
    Five8();
    Onward(Result(L5(2, 3, 5, 6, 7), 15), L5(2, 3, 4, 5, 6), rest8, 5, Result(L5(2, 3, 5, 6, 4), 16));
    Five9();
    Onward(Result(L5(2, 3, 5, 6, 4), 16), L2(0, 1), rest9, 5, Result(L5(5, 6, 4, 0, 1), 18));
    Five10();
    Onward(Result(L5(5, 6, 4, 0, 1), 18), L1(4), rest10, 5, Result(L5(5, 6, 0, 1, 4), 18));
    Five11();
    Onward(Result(L5(5, 6, 0, 1, 4), 18), L1(5), end, 5, Result(L5(6, 0, 1, 4, 5), 18));
  }

  lemma Six1()
    ensures Step(Result(Nil, 0), L5(1, 2, 3, 4, 5), 6) == Result(L5(1, 2, 3, 4, 5), 5)
  {
    StepIs(Nil, L5(1, 2, 3, 4, 5), Nil, Nil, L5(1, 2, 3, 4, 5), 0, 6, L5(1, 2, 3, 4, 5));
  }

  lemma Six2()
    ensures Step(Result(L5(1, 2, 3, 4, 5), 5), L1(0), 6) == Result(L6(1, 2, 3, 4, 5, 0), 6)
  {
    StepIs(L5(1, 2, 3, 4, 5), L1(0), L5(1, 2, 3, 4, 5), Nil, L1(0), 5, 6, L6(1, 2, 3, 4, 5, 0));
  }

  lemma Six3()
    ensures Step(Result(L6(1, 2, 3, 4, 5, 0), 6), L5(1, 2, 3, 4, 5), 6) == Result(L6(0, 1, 2, 3, 4, 5), 6)
  {
    StepIs(L6(1, 2, 3, 4, 5, 0), L5(1, 2, 3, 4, 5), L1(0), L5(1, 2, 3, 4, 5), Nil, 6, 6, L6(0, 1, 2, 3, 4, 5));
  }

  lemma Six4()
    ensures Step(Result(L6(0, 1, 2, 3, 4, 5), 6), L2(6, 7), 6) == Result(L6(2, 3, 4, 5, 6, 7), 8)
  {
    StepIs(L6(0, 1, 2, 3, 4, 5), L2(6, 7), L6(0, 1, 2, 3, 4, 5), Nil, L2(6, 7), 6, 6, L6(2, 3, 4, 5, 6, 7));
  }

  lemma Six5()
    ensures Step(Result(L6(2, 3, 4, 5, 6, 7), 8), L5(0, 1, 2, 3, 4), 6) == Result(L6(7, 2, 3, 4, 0, 1), 10)
  {
    StepIs(L6(2, 3, 4, 5, 6, 7), L5(0, 1, 2, 3, 4), L3(5, 6, 7), L3(2, 3, 4), L2(0, 1), 8, 6, L6(7, 2, 3, 4, 0, 1));
  }

  lemma Six6()
    ensures Step(Result(L6(7, 2, 3, 4, 0, 1), 10), L1(5), 6) == Result(L6(2, 3, 4, 0, 1, 5), 11)
  {
    StepIs(L6(7, 2, 3, 4, 0, 1), L1(5), L6(7, 2, 3, 4, 0, 1), Nil, L1(5), 10, 6, L6(2, 3, 4, 0, 1, 5));
  }

  lemma Six7()
    ensures Step(Result(L6(2, 3, 4, 0, 1, 5), 11), L2(6, 7), 6) == Result(L6(4, 0, 1, 5, 6, 7), 13)
  {
    StepIs(L6(2, 3, 4, 0, 1, 5), L2(6, 7), L6(2, 3, 4, 0, 1, 5), Nil, L2(6, 7), 11, 6, L6(4, 0, 1, 5, 6, 7));
  }

  lemma Six8()
    ensures Step(Result(L6(4, 0, 1, 5, 6, 7), 13), L5(2, 3, 4, 5, 6), 6) == Result(L6(7, 4, 5, 6, 2, 3), 15)
  {
    StepIs(L6(4, 0, 1, 5, 6, 7), L5(2, 3, 4, 5, 6), L3(0, 1, 7), L3(4, 5, 6), L2(2, 3), 13, 6, L6(7, 4, 5, 6, 2, 3));
  }

  lemma Six9()
    ensures Step(Result(L6(7, 4, 5, 6, 2, 3), 15), L2(0, 1), 6) == Result(L6(5, 6, 2, 3, 0, 1), 17)
  {
    StepIs(L6(7, 4, 5, 6, 2, 3), L2(0, 1), L6(7, 4, 5, 6, 2, 3), Nil, L2(0, 1), 15, 6, L6(5, 6, 2, 3, 0, 1));
  }

  lemma Six10()
    ensures Step(Result(L6(5, 6, 2, 3, 0, 1), 17), L1(4), 6) == Result(L6(6, 2, 3, 0, 1, 4), 18)
  {
    StepIs(L6(5, 6, 2, 3, 0, 1), L1(4), L6(5, 6, 2, 3, 0, 1), Nil, L1(4), 17, 6, L6(6, 2, 3, 0, 1, 4));
  }

  lemma Six11()
    ensures Step(Result(L6(6, 2, 3, 0, 1, 4), 18), L1(5), 6) == Result(L6(2, 3, 0, 1, 4, 5), 19)
  {
    StepIs(L6(6, 2, 3, 0, 1, 4), L1(5), L6(6, 2, 3, 0, 1, 4), Nil, L1(5), 18, 6, L6(2, 3, 0, 1, 4, 5));
  }

  lemma SixSlots(end: Run)
    requires end == Done
    ensures Compute(Result(Nil, 0), ElevenRequests(end), 6) == Result(L6(2, 3, 0, 1, 4, 5), 19)
  {
    var rest10 := Then(L1(5), end);
    var rest9 := Then(L1(4), rest10);
    var rest8 := Then(L2(0, 1), rest9);
    var rest7 := Then(L5(2, 3, 4, 5, 6), rest8);
    var rest6 := Then(L2(6, 7), rest7);
    var rest5 := Then(L1(5), rest6);
    var rest4 := Then(L5(0, 1, 2, 3, 4), rest5);
    var rest3 := Then(L2(6, 7), rest4);
    var rest2 := Then(L5(1, 2, 3, 4, 5), rest3);
    var rest1 := Then(L1(0), rest2);
    Six1();
    Onward(Result(Nil, 0), L5(1, 2, 3, 4, 5), rest1, 6, Result(L5(1, 2, 3, 4, 5), 5));
    Six2();
    Onward(Result(L5(1, 2, 3, 4, 5), 5), L1(0), rest2, 6, Result(L6(1, 2, 3, 4, 5, 0), 6));
    Six3();
    Onward(Result(L6(1, 2, 3, 4, 5, 0), 6), L5(1, 2, 3, 4, 5), rest3, 6, Result(L6(0, 1, 2, 3, 4, 5), 6));
    Six4();
    Onward(Result(L6(0, 1, 2, 3, 4, 5), 6), L2(6, 7), rest4, 6, Result(L6(2, 3, 4, 5, 6, 7), 8));
    Six5();
    Onward(Result(L6(2, 3, 4, 5, 6, 7), 8), L5(0, 1, 2, 3, 4), rest5, 6, Result(L6(7, 2, 3, 4, 0, 1), 10));
    Six6();
    Onward(Result(L6(7, 2, 3, 4, 0, 1), 10), L1(5), rest6, 6, Result(L6(2, 3, 4, 0, 1, 5), 11));
    Six7();
    Onward(Result(L6(2, 3, 4, 0, 1, 5), 11), L2(6, 7), rest7, 6, Result(L6(4, 0, 1, 5, 6, 7), 13));
    Six8();
    Onward(Result(L6(4, 0, 1, 5, 6, 7), 13), L5(2, 3, 4, 5, 6), rest8, 6, Result(L6(7, 4, 5, 6, 2, 3), 15));
    Six9();
    Onward(Result(L6(7, 4, 5, 6, 2, 3), 15), L2(0, 1), rest9, 6, Result(L6(5, 6, 2, 3, 0, 1), 17));
    Six10();
    Onward(Result(L6(5, 6, 2, 3, 0, 1), 17), L1(4), rest10, 6, Result(L6(6, 2, 3, 0, 1, 4), 18));
    Six11();
    Onward(Result(L6(6, 2, 3, 0, 1, 4), 18), L1(5), end, 6, Result(L6(2, 3, 0, 1, 4, 5), 19));
  }

  lemma ElevenRequestsFit(end: Run)
    requires end == Done
    ensures Fits(ElevenRequests(end), 5)
  {
  }

  lemma OnlyInFive()
    ensures In(6, L5(6, 0, 1, 4, 5)) && !In(6, L6(2, 3, 0, 1, 4, 5))
  {
  }

  lemma Compare(p: Pool, q: Pool, run: Run, small: Result, large: Result, page: nat) returns (requests: seq<seq<nat>>)
    requires Empty(p) && Empty(q) && |p.slots| <= |q.slots| && Fits(run, |p.slots|)
    requires Compute(Result(Nil, 0), run, |p.slots|) == small && Compute(Result(Nil, 0), run, |q.slots|) == large
    requires In(page, small.list) && !In(page, large.list)
    ensures requests == Requests(run) && Fit(requests, |p.slots|)
    ensures PoolMisses(p, requests) == small.misses && PoolMisses(q, requests) == large.misses
    ensures page in Held(p, requests) && page !in Held(q, requests)
  {
    requests := Requests(run);
    HeldIsResident(p, requests, page);
    HeldIsResident(q, requests, page);
    FitsMore(run, |p.slots|, |q.slots|);
    Computes(p, run, requests, small);
    Computes(q, run, requests, large);
  }

  /** Requests of several pages: a larger pool can lose pages that a smaller one holds, because hits are
    * stamped before misses and two pools may put the pages of one request in different orders; and it
    * can miss more. After this run, six slots have loaded 19 pages and five 18, and page 6 is resident
    * in five slots and not in six. */
  lemma LargerPoolLoses(p: Pool, q: Pool, end: Run) returns (requests: seq<seq<nat>>)
    requires Empty(p) && |p.slots| == 5 && Empty(q) && |q.slots| == 6 && end == Done
    ensures requests == Requests(ElevenRequests(end)) && Fit(requests, 5)
    ensures PoolMisses(p, requests) == 18 && PoolMisses(q, requests) == 19
    ensures 6 in Held(p, requests) && 6 !in Held(q, requests)
  {
    ElevenRequestsFit(end);
    FiveSlots(end);
    SixSlots(end);
    OnlyInFive();
    requests := Compare(p, q, ElevenRequests(end), Result(L5(6, 0, 1, 4, 5), 18), Result(L6(2, 3, 0, 1, 4, 5), 19), 6);
  }

  lemma LostOutOfStep(p: Pool, q: Pool, requests: seq<seq<nat>>, page: nat)
    requires Empty(p) && Empty(q) && |p.slots| <= |q.slots| && Fit(requests, |p.slots|)
    requires page in Held(p, requests) && page !in Held(q, requests)
    ensures !InStep(requests, |p.slots|, |q.slots|)
  {
    HeldIsResident(p, requests, page);
    HeldIsResident(q, requests, page);
    if InStep(requests, |p.slots|, |q.slots|) {
      WideInclusion(p, q, requests, page);
    }
  }

  /** It follows that the two pools were not in step. */
  lemma NotInStep(p: Pool, q: Pool, end: Run) returns (requests: seq<seq<nat>>)
    requires Empty(p) && |p.slots| == 5 && Empty(q) && |q.slots| == 6 && end == Done
    ensures requests == Requests(ElevenRequests(end)) && !InStep(requests, 5, 6)
  {
    requests := LargerPoolLoses(p, q, end);
    LostOutOfStep(p, q, requests, 6);
  }
}
