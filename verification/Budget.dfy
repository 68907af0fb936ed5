/** What a larger video memory budget buys: runs of requests that lie in one chunk each. */
module Budget {
  import opened Residency

  // ----- Runs -----

  /** The pool after a run of one-page requests. */
  ghost function RunPool(p: Pool, trace: seq<nat>): Pool {
    if trace == [] then p else Request(RunPool(p, trace[..|trace| - 1]), [trace[|trace| - 1]])
  }

  /** The recency list after the same run, starting empty. */
  ghost function RunList(trace: seq<nat>, capacity: nat): seq<nat> {
    if trace == [] then [] else Serve(RunList(trace[..|trace| - 1], capacity), [trace[|trace| - 1]], capacity)
  }

  /** How many requests of the run had to load their page. */
  ghost function Misses(trace: seq<nat>, capacity: nat): nat {
    if trace == [] then 0 else
      var init, last := trace[..|trace| - 1], trace[|trace| - 1];
      Misses(init, capacity) + if last in RunList(init, capacity) then 0 else 1
  }

  lemma {:induction false} RunRefines(p: Pool, trace: seq<nat>)
    requires PoolOk(p) && |p.slots| > 0
    requires forall i :: 0 <= i < |p.slots| ==> !p.slots[i].mapped
    ensures PoolOk(RunPool(p, trace)) && |RunPool(p, trace).slots| == |p.slots|
    ensures Orders(RunPool(p, trace).slots, RunList(trace, |p.slots|))
  {
    if trace != [] {
      var init, last := trace[..|trace| - 1], trace[|trace| - 1];
      RunRefines(p, init);
      RequestKeeps(RunPool(p, init), [last]);
      RequestRefines(RunPool(p, init), RunList(init, |p.slots|), [last]);
    }
  }

  // ----- The reference: all pages ever used, most recent last -----

  ghost function History(trace: seq<nat>): seq<nat> {
    if trace == [] then [] else
      Moved(History(trace[..|trace| - 1]), trace[|trace| - 1])
  }

  lemma {:induction false} HistoryElements(trace: seq<nat>)
    ensures Distinct(History(trace))
    ensures forall q :: q in History(trace) <==> q in trace
  {
    if trace != [] {
      var init, last := trace[..|trace| - 1], trace[|trace| - 1];
      HistoryElements(init);
      assert trace == init + [last];
      if last in History(init) {
        DropElements(History(init), Index(History(init), last));
      }
    }
  }

  /** The last `n` elements of a list. */
  function Suffix(list: seq<nat>, n: nat): seq<nat> {
    if |list| <= n then list else list[|list| - n..]
  }

  lemma ServeOne(list: seq<nat>, page: nat, capacity: nat)
    ensures Serve(list, [page], capacity) == if page in list then Touch(list, page) else Place(list, page, {page}, capacity)
  {
    assert [page][..0] == [] && Elements([page]) == {page};
    assert TouchAll(list, [page]) == Touch(TouchAll(list, []), page);
    assert Absent(list, [page]) == Absent(list, []) + if page in list then [] else [page];
    if page !in list {
      assert Absent(list, [page]) == [page];
      assert PlaceAll(list, [page], {page}, capacity) == Place(PlaceAll(list, [], {page}, capacity), page, {page}, capacity);
    }
  }

  /** The list with the page, wherever it was, moved to the back. */
  ghost function Moved(list: seq<nat>, page: nat): seq<nat> {
    (if page in list then Drop(list, Index(list, page)) else list) + [page]
  }

  lemma IndexIs(list: seq<nat>, k: nat, page: nat)
    requires Distinct(list) && k < |list| && list[k] == page
    ensures page in list && Index(list, page) == k
  {
  }

  lemma DistinctParts(a: seq<nat>, b: seq<nat>)
    requires Distinct(a + b)
    ensures Distinct(a) && Distinct(b)
    ensures forall q :: q in a ==> q !in b
  {
    var list := a + b;
    forall i, j | 0 <= i < j < |a| ensures a[i] != a[j] {
      assert list[i] != list[j];
    }
    forall i, j | 0 <= i < j < |b| ensures b[i] != b[j] {
      assert list[|a| + i] != list[|a| + j];
    }
    forall i, j | 0 <= i < |a| && 0 <= j < |b| ensures a[i] != b[j] {
      assert list[i] != list[|a| + j];
    }
  }

  lemma MovedAt(list: seq<nat>, k: nat, page: nat)
    requires Distinct(list) && k < |list| && list[k] == page
    ensures Moved(list, page) == Drop(list, k) + [page]
  {
    IndexIs(list, k, page);
  }

  lemma MovedInSuffix(older: seq<nat>, recent: seq<nat>, page: nat)
    requires Distinct(older + recent) && page in recent
    ensures Moved(older + recent, page) == older + Moved(recent, page)
  {
    var k := Index(recent, page);
    MovedAt(older + recent, |older| + k, page);
    DropRight(older, recent, k);
    Associative(older, Drop(recent, k), [page]);
  }

  lemma Associative(a: seq<nat>, b: seq<nat>, c: seq<nat>)
    ensures a + b + c == a + (b + c)
  {
  }

  lemma DropRight(a: seq<nat>, b: seq<nat>, k: nat)
    requires k < |b|
    ensures Drop(a + b, |a| + k) == a + Drop(b, k)
  {
  }

  lemma DropLeft(a: seq<nat>, b: seq<nat>, k: nat)
    requires k < |a|
    ensures Drop(a + b, k) == Drop(a, k) + b
  {
  }

  lemma MovedBeforeSuffix(older: seq<nat>, recent: seq<nat>, page: nat) returns (rest: seq<nat>)
    requires Distinct(older + recent) && page !in recent
    ensures Moved(older + recent, page) == rest + recent + [page]
  {
    DistinctParts(older, recent);
    rest := older;
    if page in older {
      var k := Index(older, page);
      IndexIs(older + recent, k, page);
      DropLeft(older, recent, k);
      rest := Drop(older, k);
    }
  }

  lemma SuffixOf(a: seq<nat>, b: seq<nat>, n: nat)
    requires |b| == n || (|b| <= n && a == [])
    ensures Suffix(a + b, n) == b
  {
  }

  lemma ServeRecent(recent: seq<nat>, page: nat, n: nat)
    requires 0 < n && |recent| <= n && Distinct(recent)
    ensures Serve(recent, [page], n) ==
              if page in recent || |recent| < n then Moved(recent, page) else recent[1..] + [page]
  {
    ServeOne(recent, page, n);
    if page !in recent && |recent| == n {
      assert recent[0] in recent && recent[0] !in {page};
      assert Oldest(recent, {page}) == 0;
      assert Drop(recent, 0) == recent[1..];
    }
  }

  /** One request on the last `n` pages of a list is one request on the whole list, cut to `n`. */
  lemma ServeSuffix(list: seq<nat>, page: nat, n: nat)
    requires n > 0 && Distinct(list)
    ensures Serve(Suffix(list, n), [page], n) == Suffix(Moved(list, page), n)
  {
    var recent := Suffix(list, n);
    var older := list[..|list| - |recent|];
    assert list == older + recent;
    DistinctParts(older, recent);
    ServeRecent(recent, page, n);
    if page in recent {
      MovedInSuffix(older, recent, page);
      SuffixOf(older, Moved(recent, page), n);
    } else {
      var rest := MovedBeforeSuffix(older, recent, page);
      assert |recent| < n ==> older == [] && list == recent;
      if |recent| == n {
        SuffixOfShifted(rest, recent, page, Moved(list, page));
      }
    }
  }

  lemma SuffixOfShifted(rest: seq<nat>, recent: seq<nat>, page: nat, list: seq<nat>)
    requires recent != [] && list == rest + recent + [page]
    ensures Suffix(list, |recent|) == recent[1..] + [page]
  {
    assert list == (rest + [recent[0]]) + (recent[1..] + [page]);
    SuffixOf(rest + [recent[0]], recent[1..] + [page], |recent|);
  }

  lemma {:induction false} RunIsSuffix(trace: seq<nat>, n: nat)
    requires n > 0
    ensures RunList(trace, n) == Suffix(History(trace), n)
  {
    if trace != [] {
      var init, last := trace[..|trace| - 1], trace[|trace| - 1];
      RunIsSuffix(init, n);
      HistoryElements(init);
      ServeSuffix(History(init), last, n);
    }
  }

  // ----- The n most recent distinct pages, without any list -----

  /** Where in the run the page was used for the last time. */
  function LastUse(trace: seq<nat>, page: nat): (k: nat)
    requires page in trace
    ensures k < |trace| && trace[k] == page && page !in trace[k + 1..]
  {
    if trace[|trace| - 1] == page then |trace| - 1 else
      var init := trace[..|trace| - 1];
      assert trace == init + [trace[|trace| - 1]];
      var k := LastUse(init, page);
      assert trace[k + 1..] == init[k + 1..] + [trace[|trace| - 1]];
      k
  }

  /** The other pages used since the page was last used. */
  function Since(trace: seq<nat>, page: nat): set<nat>
    requires page in trace
  {
    Elements(trace[LastUse(trace, page) + 1..])
  }

  /** The pages that follow a page in a list. */
  ghost function After(list: seq<nat>, page: nat): set<nat>
    requires page in list
  {
    Elements(list[Index(list, page) + 1..])
  }

  lemma AfterIn(a: seq<nat>, page: nat, b: seq<nat>)
    requires Distinct(a + [page] + b)
    ensures page in a + [page] + b && After(a + [page] + b, page) == Elements(b)
  {
    var list := a + [page] + b;
    IndexIs(list, |a|, page);
    assert list[|a| + 1..] == b;
  }

  /** Moving the last page to the back of a list that is split around another page. */
  lemma MovedAround(a: seq<nat>, page: nat, b: seq<nat>, last: nat) returns (a': seq<nat>, b': seq<nat>)
    requires Distinct(a + [page] + b) && last != page
    ensures Moved(a + [page] + b, last) == a' + [page] + b' && Elements(b') == Elements(b) + {last}
  {
    var list := a + [page] + b;
    DistinctParts(a + [page], b);
    a', b' := a, b + [last];
    if last in a {
      var k := Index(a, last);
      IndexIs(list, k, last);
      DropLeft(a, [page] + b, k);
      Associative(a, [page], b);
      a' := Drop(a, k);
    } else if last in b {
      var k := Index(b, last);
      IndexIs(list, |a + [page]| + k, last);
      DropRight(a + [page], b, k);
      DropElements(b, k);
      b' := Drop(b, k) + [last];
    }
    MovedParts(list, last, a', page, b');
  }

  lemma MovedParts(list: seq<nat>, last: nat, a: seq<nat>, page: nat, b: seq<nat>)
    requires |b| > 0 && b[|b| - 1] == last
    requires (if last in list then Drop(list, Index(list, last)) else list) == a + [page] + b[..|b| - 1]
    ensures Moved(list, last) == a + [page] + b
  {
    assert b == b[..|b| - 1] + [last];
    Associative(a + [page], b[..|b| - 1], [last]);
  }

  /** Moving another page to the back adds it to what follows the page. */
  lemma MovedAfter(list: seq<nat>, last: nat, page: nat)
    requires Distinct(list) && page in list && last != page
    ensures page in Moved(list, last)
    ensures After(Moved(list, last), page) == After(list, page) + {last}
  {
    var k := Index(list, page);
    var a, b := list[..k], list[k + 1..];
    assert list == a + [page] + b;
    var a', b' := MovedAround(a, page, b, last);
    MovedDistinct(list, last);
    AfterIn(a', page, b');
  }

  lemma MovedDistinct(list: seq<nat>, last: nat)
    requires Distinct(list)
    ensures Distinct(Moved(list, last))
  {
    if last in list {
      DropElements(list, Index(list, last));
    }
  }

  lemma SinceGrows(init: seq<nat>, last: nat, page: nat)
    requires page in init && last != page
    ensures Since(init + [last], page) == Since(init, page) + {last}
  {
    var trace := init + [last];
    assert trace[..|trace| - 1] == init;
    var k := LastUse(init, page);
    assert LastUse(trace, page) == k;
    assert trace[k + 1..] == init[k + 1..] + [last];
  }

  lemma {:induction false} RankInHistory(trace: seq<nat>, page: nat)
    requires page in trace
    ensures page in History(trace) && After(History(trace), page) == Since(trace, page)
  {
    HistoryElements(trace);
    var init, last := trace[..|trace| - 1], trace[|trace| - 1];
    if last == page {
      var h := History(trace);
      assert h[|h| - 1] == page;
      IndexIs(h, |h| - 1, page);
    } else {
      assert trace == init + [last];
      RankInHistory(init, page);
      HistoryElements(init);
      MovedAfter(History(init), last, page);
      SinceGrows(init, last, page);
    }
  }

  lemma InRight(list: seq<nat>, d: nat, page: nat)
    requires Distinct(list) && page in list && d <= |list|
    ensures page in list[d..] <==> d <= Index(list, page)
  {
    var k := Index(list, page);
    if d <= k {
      assert list[d..][k - d] == page;
    } else {
      assert forall i :: d <= i < |list| ==> list[i] != list[k];
    }
  }

  lemma InSuffix(list: seq<nat>, n: nat, page: nat)
    requires Distinct(list) && page in list
    ensures page in Suffix(list, n) <==> |After(list, page)| < n
  {
    var younger := list[Index(list, page) + 1..];
    assert Distinct(younger);
    DistinctCount(younger);
    if n < |list| {
      InRight(list, |list| - n, page);
    }
  }

  /** With `n` slots exactly the `n` most recent distinct pages are resident: those since whose
    * last use fewer than `n` other pages were used. */
  lemma ResidentIffRecent(p: Pool, trace: seq<nat>, page: nat)
    requires PoolOk(p) && |p.slots| > 0
    requires forall i :: 0 <= i < |p.slots| ==> !p.slots[i].mapped
    ensures Resident(RunPool(p, trace).slots, page) <==> page in trace && |Since(trace, page)| < |p.slots|
  {
    RunRefines(p, trace);
    RunIsSuffix(trace, |p.slots|);
    HistoryElements(trace);
    if page in trace {
      RankInHistory(trace, page);
      InSuffix(History(trace), |p.slots|, page);
    }
  }

  /** A larger budget keeps everything a smaller one keeps. */
  lemma Inclusion(p: Pool, q: Pool, trace: seq<nat>, page: nat)
    requires PoolOk(p) && PoolOk(q) && 0 < |p.slots| <= |q.slots|
    requires forall i :: 0 <= i < |p.slots| ==> !p.slots[i].mapped
    requires forall i :: 0 <= i < |q.slots| ==> !q.slots[i].mapped
    requires Resident(RunPool(p, trace).slots, page)
    ensures Resident(RunPool(q, trace).slots, page)
  {
    ResidentIffRecent(p, trace, page);
    ResidentIffRecent(q, trace, page);
  }

  /** No anomaly: on no run does a larger budget miss more often. */
  lemma {:induction false} MissesFall(trace: seq<nat>, n: nat, m: nat)
    requires 0 < n <= m
    ensures Misses(trace, m) <= Misses(trace, n)
  {
    if trace != [] {
      var init, last := trace[..|trace| - 1], trace[|trace| - 1];
      MissesFall(init, n, m);
      RunIsSuffix(init, n);
      RunIsSuffix(init, m);
      HistoryElements(init);
      if last in History(init) {
        InSuffix(History(init), n, last);
        InSuffix(History(init), m, last);
      }
    }
  }
}
