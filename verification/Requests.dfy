/** A request names byte spans; what it needs is the union of their pages, in order of first mention. */
module Requests {
  import opened Pages
  import opened Residency

  datatype Span = Span(offset: nat, bytes: nat)

  predicate InFile(g: Geometry, span: Span) {
    0 < span.bytes && span.offset < |g.file| && span.bytes <= |g.file| - span.offset
  }

  function First(g: Geometry, span: Span): nat
    requires g.Valid()
  {
    span.offset / g.chunk
  }

  function Last(g: Geometry, span: Span): nat
    requires g.Valid() && InFile(g, span)
  {
    (span.offset + span.bytes - 1) / g.chunk
  }

  predicate AllInFile(g: Geometry, spans: seq<Span>) {
    forall k :: 0 <= k < |spans| ==> InFile(g, spans[k])
  }

  function AddPage(pages: seq<nat>, page: nat): seq<nat> {
    if page in pages then pages else pages + [page]
  }

  /** Add the pages `first`, `first + 1`, ..., up to `last` excluded. */
  function AddRange(pages: seq<nat>, first: nat, last: nat): (r: seq<nat>)
    ensures pages <= r
  {
    if last <= first then pages else AddPage(AddRange(pages, first, last - 1), last - 1)
  }

  function Union(g: Geometry, spans: seq<Span>): seq<nat>
    requires g.Valid() && AllInFile(g, spans)
  {
    if spans == [] then [] else
      var span := spans[|spans| - 1];
      AddRange(Union(g, spans[..|spans| - 1]), First(g, span), Last(g, span) + 1)
  }

  lemma {:induction false} AddRangeElements(pages: seq<nat>, first: nat, last: nat)
    requires Distinct(pages)
    ensures Distinct(AddRange(pages, first, last))
    ensures forall q :: q in AddRange(pages, first, last) <==> q in pages || first <= q < last
    decreases last
  {
    if first < last {
      AddRangeElements(pages, first, last - 1);
    }
  }

  /** A range alone already needs a slot for each of its pages. */
  lemma {:induction false} AddRangeCount(pages: seq<nat>, first: nat, last: nat)
    requires Distinct(pages)
    ensures |AddRange(pages, first, last)| >= last - first
  {
    if first < last {
      AddRangeElements(pages, first, last);
      DistinctCount(AddRange(pages, first, last));
      CardinalityMonotone(Range(first, last), Elements(AddRange(pages, first, last)));
    }
  }

  function Range(first: nat, last: nat): (r: set<nat>)
    ensures forall q :: q in r <==> first <= q < last
    ensures |r| == if first <= last then last - first else 0
  {
    if last <= first then {} else Range(first, last - 1) + {last - 1}
  }

  lemma {:induction false} AddRangeMonotone(pages: seq<nat>, first: nat, middle: nat, last: nat)
    requires middle <= last
    ensures |AddRange(pages, first, middle)| <= |AddRange(pages, first, last)|
    decreases last
  {
    if middle < last {
      AddRangeMonotone(pages, first, middle, last - 1);
    }
  }

  /** The page is touched by some span of the request. */
  ghost predicate Touched(g: Geometry, spans: seq<Span>, page: nat)
    requires g.Valid()
  {
    exists k :: 0 <= k < |spans| && Touches(g, spans[k], page)
  }

  predicate Touches(g: Geometry, span: Span, page: nat)
    requires g.Valid()
  {
    InFile(g, span) && First(g, span) <= page <= Last(g, span)
  }

  lemma {:induction false} UnionElements(g: Geometry, spans: seq<Span>)
    requires g.Valid() && AllInFile(g, spans)
    ensures Distinct(Union(g, spans))
    ensures forall q :: q in Union(g, spans) <==> Touched(g, spans, q)
  {
    if spans != [] {
      var init, span := spans[..|spans| - 1], spans[|spans| - 1];
      UnionElements(g, init);
      AddRangeElements(Union(g, init), First(g, span), Last(g, span) + 1);
      forall q ensures Touched(g, spans, q) <==> Touched(g, init, q) || Touches(g, span, q) {
        if k :| 0 <= k < |init| && Touches(g, init[k], q) {
          assert spans[k] == init[k];
        }
        if k :| 0 <= k < |spans| && Touches(g, spans[k], q) {
          assert k < |init| ==> spans[k] == init[k];
        }
      }
    }
  }

  // ----- The order of first mention -----

  /** The first span that touches the page. */
  function FirstTouch(g: Geometry, spans: seq<Span>, page: nat): (k: nat)
    requires g.Valid() && Touched(g, spans, page)
    ensures k < |spans| && Touches(g, spans[k], page) && forall i :: 0 <= i < k ==> !Touches(g, spans[i], page)
  {
    if Touches(g, spans[0], page) then 0 else
      assert Touched(g, spans[1..], page) by {
        var k :| 0 <= k < |spans| && Touches(g, spans[k], page);
        assert spans[1..][k - 1] == spans[k];
      }
      var k := FirstTouch(g, spans[1..], page);
      assert forall i :: 0 < i < k + 1 ==> spans[i] == spans[1..][i - 1];
      k + 1
  }

  /** Page `a` is mentioned before page `b`: by an earlier span, or lower down in the same one. */
  ghost predicate Mentioned(g: Geometry, spans: seq<Span>, a: nat, b: nat)
    requires g.Valid()
  {
    && Touched(g, spans, a) && Touched(g, spans, b)
    && (FirstTouch(g, spans, a) < FirstTouch(g, spans, b) || (FirstTouch(g, spans, a) == FirstTouch(g, spans, b) && a < b))
  }

  /** Exactly the pages that the spans touch, in the order in which they are first mentioned. */
  ghost predicate InMentionOrder(g: Geometry, spans: seq<Span>, pages: seq<nat>)
    requires g.Valid()
  {
    && (forall q :: q in pages <==> Touched(g, spans, q))
    && forall i, j :: 0 <= i < j < |pages| ==> Mentioned(g, spans, pages[i], pages[j])
  }

  lemma {:induction false} AddRangeOrder(pages: seq<nat>, first: nat, last: nat)
    ensures var r := AddRange(pages, first, last);
            && pages <= r && (forall i :: |pages| <= i < |r| ==> first <= r[i] < last && r[i] !in pages)
            && forall i, j :: |pages| <= i < j < |r| ==> r[i] < r[j]
    decreases last
  {
    if first < last {
      AddRangeOrder(pages, first, last - 1);
    }
  }

  lemma FirstTouchIs(g: Geometry, spans: seq<Span>, page: nat, k: nat)
    requires g.Valid() && k < |spans| && Touches(g, spans[k], page) && forall i :: 0 <= i < k ==> !Touches(g, spans[i], page)
    ensures Touched(g, spans, page) && FirstTouch(g, spans, page) == k
  {
  }

  /** What was mentioned before the last span keeps its place; the rest is first mentioned there. */
  lemma TouchedAtLast(g: Geometry, spans: seq<Span>, page: nat)
    requires g.Valid() && spans != [] && Touched(g, spans, page)
    ensures var init := spans[..|spans| - 1];
            if Touched(g, init, page) then FirstTouch(g, spans, page) == FirstTouch(g, init, page)
            else FirstTouch(g, spans, page) == |spans| - 1
  {
    var init := spans[..|spans| - 1];
    if Touched(g, init, page) {
      FirstTouchIs(g, spans, page, FirstTouch(g, init, page));
    } else {
      forall i | 0 <= i < |init| ensures !Touches(g, spans[i], page) {
        assert spans[i] == init[i];
      }
    }
  }

  /** The union is in the order of first mention. */
  lemma {:induction false} UnionInOrder(g: Geometry, spans: seq<Span>)
    requires g.Valid() && AllInFile(g, spans)
    ensures InMentionOrder(g, spans, Union(g, spans))
  {
    UnionElements(g, spans);
    if spans != [] {
      var init, span := spans[..|spans| - 1], spans[|spans| - 1];
      UnionInOrder(g, init);
      var before, pages := Union(g, init), Union(g, spans);
      AddRangeOrder(before, First(g, span), Last(g, span) + 1);
      forall i, j | 0 <= i < j < |pages| ensures Mentioned(g, spans, pages[i], pages[j]) {
        TouchedAtLast(g, spans, pages[i]);
        TouchedAtLast(g, spans, pages[j]);
        if j < |before| {
          assert pages[i] == before[i] && pages[j] == before[j];
        } else if i < |before| {
          assert pages[i] == before[i];
        }
      }
    }
  }

  /** And no other list is. */
  lemma MentionOrderIsUnique(g: Geometry, spans: seq<Span>, a: seq<nat>, b: seq<nat>)
    requires g.Valid() && InMentionOrder(g, spans, a) && InMentionOrder(g, spans, b)
    ensures a == b
  {
    SortedUnique((x: nat, y: nat) => Mentioned(g, spans, x, y), a, b);
  }

  /** Two lists of the same elements in the same strict order are equal. */
  lemma {:induction false} SortedUnique(less: (nat, nat) -> bool, a: seq<nat>, b: seq<nat>)
    requires forall x, y :: less(x, y) ==> !less(y, x)
    requires forall q :: q in a <==> q in b
    requires forall i, j :: 0 <= i < j < |a| ==> less(a[i], a[j])
    requires forall i, j :: 0 <= i < j < |b| ==> less(b[i], b[j])
    ensures a == b
  {
    SomeElement(b);
    if a != [] {
      assert a[0] in b;
      var last, a', b' := a[|a| - 1], a[..|a| - 1], b[..|b| - 1];
      LastsAgree(less, a, b);
      FrontElements(less, a, a', last);
      FrontElements(less, b, b', last);
      SortedUnique(less, a', b');
    }
  }

  lemma LastsAgree(less: (nat, nat) -> bool, a: seq<nat>, b: seq<nat>)
    requires forall x, y :: less(x, y) ==> !less(y, x)
    requires a != [] && b != [] && forall q :: q in a <==> q in b
    requires forall i, j :: 0 <= i < j < |a| ==> less(a[i], a[j])
    requires forall i, j :: 0 <= i < j < |b| ==> less(b[i], b[j])
    ensures a[|a| - 1] == b[|b| - 1]
  {
    assert a[|a| - 1] in b && b[|b| - 1] in a;
    LastIsLast(less, a, b[|b| - 1]);
    LastIsLast(less, b, a[|a| - 1]);
  }

  lemma SomeElement(list: seq<nat>)
    ensures list == [] || exists q :: q in list
  {
    if list != [] {
      assert list[0] in list;
    }
  }

  lemma FrontElements(less: (nat, nat) -> bool, list: seq<nat>, init: seq<nat>, last: nat)
    requires forall x, y :: less(x, y) ==> !less(y, x)
    requires list != [] && init == list[..|list| - 1] && last == list[|list| - 1]
    requires forall i, j :: 0 <= i < j < |list| ==> less(list[i], list[j])
    ensures list == init + [last] && forall q :: q in init <==> q in list && q != last
  {
    assert list == init + [last];
    assert forall q :: q in init ==> less(q, last);
  }

  lemma LastIsLast(less: (nat, nat) -> bool, list: seq<nat>, y: nat)
    requires y in list && forall i, j :: 0 <= i < j < |list| ==> less(list[i], list[j])
    ensures y == list[|list| - 1] || less(y, list[|list| - 1])
  {
  }

  /** The pages of a single span. */
  lemma UnionOfOne(g: Geometry, span: Span)
    requires g.Valid() && InFile(g, span)
    ensures AllInFile(g, [span]) && |Union(g, [span])| == Last(g, span) + 1 - First(g, span)
  {
    DivMonotone(span.offset, span.offset + span.bytes - 1, g.chunk);
    assert [span][..0] == [];
    AddRangeElements([], First(g, span), Last(g, span) + 1);
    DistinctCount(AddRange([], First(g, span), Last(g, span) + 1));
    assert Elements(AddRange([], First(g, span), Last(g, span) + 1)) == Range(First(g, span), Last(g, span) + 1);
  }

  /** Every byte of a span lies on a page of the union, and that page is in the file. */
  lemma ByteIsCovered(g: Geometry, spans: seq<Span>, k: nat, a: nat)
    requires g.Valid() && AllInFile(g, spans) && k < |spans|
    requires spans[k].offset <= a < spans[k].offset + spans[k].bytes
    ensures a < |g.file| && a / g.chunk in Union(g, spans)
  {
    UnionElements(g, spans);
    DivMonotone(spans[k].offset, a, g.chunk);
    DivMonotone(a, spans[k].offset + spans[k].bytes - 1, g.chunk);
    assert Touches(g, spans[k], a / g.chunk);
  }

  lemma DivMonotone(a: nat, b: nat, c: nat)
    requires a <= b && 0 < c
    ensures a / c <= b / c
  {
    var x, y := a / c, b / c;
    assert x * c <= a && b < y * c + c;
    if y < x {
      Scales(y + 1, x, c);
    }
  }

  lemma TouchedInFile(g: Geometry, span: Span, page: nat)
    requires g.Valid() && Touches(g, span, page)
    ensures g.Has(page)
  {
    var end := span.offset + span.bytes - 1;
    Scales(page, end / g.chunk, g.chunk);
    assert end / g.chunk * g.chunk <= end;
  }

  lemma UnionInFile(g: Geometry, spans: seq<Span>, page: nat)
    requires g.Valid() && AllInFile(g, spans) && page in Union(g, spans)
    ensures g.Has(page)
  {
    UnionElements(g, spans);
    var k :| 0 <= k < |spans| && Touches(g, spans[k], page);
    TouchedInFile(g, spans[k], page);
  }

  datatype Error = NotOwner | Unusable | OutsideFile | TooLarge | DriverFailure

  datatype Plan = Accepted(pages: seq<nat>) | Rejected(error: Error)

  /** The first span that makes the request unacceptable. */
  predicate Offends(g: Geometry, spans: seq<Span>, k: nat, capacity: nat, error: Error)
    requires g.Valid()
  {
    && k < |spans|
    && AllInFile(g, spans[..k]) && |Union(g, spans[..k])| <= capacity
    && match error
       case OutsideFile => !InFile(g, spans[k])
       case TooLarge => AllInFile(g, spans[..k + 1]) && |Union(g, spans[..k + 1])| > capacity
       case _ => false
  }

  /** Validation: the pages of the request, or the reason for the first span at fault. */
  method CollectPages(g: Geometry, spans: seq<Span>, capacity: nat) returns (plan: Plan)
    requires g.Valid()
    ensures plan.Accepted? <==> AllInFile(g, spans) && |Union(g, spans)| <= capacity
    ensures plan.Accepted? ==> plan.pages == Union(g, spans) && InMentionOrder(g, spans, plan.pages)
    ensures plan.Rejected? ==> exists k: nat :: Offends(g, spans, k, capacity, plan.error)
  {
    var pages := [];
    for k := 0 to |spans|
      invariant AllInFile(g, spans[..k])
      invariant pages == Union(g, spans[..k]) && |pages| <= capacity
    {
      plan := AddSpan(g, spans, k, pages, capacity);
      if plan.Rejected? {
        return;
      }
      pages := plan.pages;
    }
    assert spans[..|spans|] == spans;
    UnionInOrder(g, spans);
    return Accepted(pages);
  }

  /** One span more. */
  method AddSpan(g: Geometry, spans: seq<Span>, k: nat, pages: seq<nat>, capacity: nat) returns (plan: Plan)
    requires g.Valid() && k < |spans| && AllInFile(g, spans[..k])
    requires pages == Union(g, spans[..k]) && |pages| <= capacity
    ensures plan.Accepted? ==> AllInFile(g, spans[..k + 1]) && plan.pages == Union(g, spans[..k + 1]) && |plan.pages| <= capacity
    ensures plan.Rejected? ==> Offends(g, spans, k, capacity, plan.error) && !(AllInFile(g, spans) && |Union(g, spans)| <= capacity)
  {
    var span := spans[k];
    ghost var upTo := spans[..k + 1];
    assert upTo[..k] == spans[..k] && upTo[k] == span;
    if span.bytes == 0 || span.offset >= |g.file| || span.bytes > |g.file| - span.offset {
      return Rejected(OutsideFile);
    }
    UnionElements(g, spans[..k]);
    DivMonotone(span.offset, span.offset + span.bytes - 1, g.chunk);
    var fits, longer := AddPages(pages, First(g, span), Last(g, span), capacity);
    if !fits {
      TooLargeStays(g, spans, k, capacity);
      return Rejected(TooLarge);
    }
    plan := Accepted(longer);
  }

  /** Add the pages of one span, unless there are then more than `capacity`. */
  method AddPages(pages: seq<nat>, first: nat, last: nat, capacity: nat) returns (fits: bool, longer: seq<nat>)
    requires first <= last && Distinct(pages) && |pages| <= capacity
    ensures fits <==> |AddRange(pages, first, last + 1)| <= capacity
    ensures fits ==> longer == AddRange(pages, first, last + 1)
  {
    longer := pages;
    if last - first + 1 > capacity {
      AddRangeCount(pages, first, last + 1);
      return false, longer;
    }
    for page := first to last + 1
      invariant longer == AddRange(pages, first, page) && |longer| <= capacity
    {
      if page !in longer {
        longer := longer + [page];
      }
      if |longer| > capacity {
        AddRangeMonotone(pages, first, page + 1, last + 1);
        return false, longer;
      }
    }
    fits := true;
  }

  /** A request that is too large stays so whatever spans follow. */
  lemma {:induction false} TooLargeStays(g: Geometry, spans: seq<Span>, k: nat, capacity: nat)
    requires g.Valid() && k < |spans|
    requires AllInFile(g, spans[..k + 1]) && |Union(g, spans[..k + 1])| > capacity
    ensures AllInFile(g, spans) ==> |Union(g, spans)| > capacity
    decreases |spans|
  {
    if k + 1 < |spans| && AllInFile(g, spans) {
      var init := spans[..|spans| - 1];
      assert init[..k + 1] == spans[..k + 1];
      TooLargeStays(g, init, k, capacity);
    } else {
      assert k + 1 == |spans| ==> spans[..k + 1] == spans;
    }
  }
}
