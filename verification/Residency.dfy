/** Which pages are resident: the timestamped slots of the pool, and the recency list they stand for. */
module Residency {

  /** A physical chunk: the page it is mapped at, if any, and when it was last used. */
  datatype Slot = Slot(page: nat, used: nat, mapped: bool)

  datatype Pool = Pool(slots: seq<Slot>, clock: nat)

  predicate Holds(slots: seq<Slot>, i: nat, page: nat) {
    i < |slots| && slots[i].mapped && slots[i].page == page
  }

  ghost predicate Resident(slots: seq<Slot>, page: nat) {
    exists i: nat :: Holds(slots, i, page)
  }

  /** No page is mapped twice, no two mapped slots carry the same time, no time is in the future. */
  predicate PoolOk(p: Pool) {
    && (forall i :: 0 <= i < |p.slots| ==> p.slots[i].used <= p.clock)
    && (forall i, j :: 0 <= i < j < |p.slots| && p.slots[i].mapped && p.slots[j].mapped ==>
          p.slots[i].page != p.slots[j].page && p.slots[i].used != p.slots[j].used)
  }

  function PagesOf(slots: seq<Slot>): set<nat> {
    set i | 0 <= i < |slots| && slots[i].mapped :: slots[i].page
  }

  function Mapped(slots: seq<Slot>): (n: nat)
    ensures n <= |slots|
  {
    if slots == [] then 0 else Mapped(slots[..|slots| - 1]) + if slots[|slots| - 1].mapped then 1 else 0
  }

  ghost function SlotOf(slots: seq<Slot>, page: nat): (i: nat)
    requires Resident(slots, page)
    ensures Holds(slots, i, page)
  {
    var i: nat :| Holds(slots, i, page);
    i
  }

  // ----- The requests, as functions on the pool -----

  /** A page that is resident becomes the most recently used one. */
  ghost function Hit(p: Pool, page: nat): Pool {
    if Resident(p.slots, page) then
      var i := SlotOf(p.slots, page);
      Pool(p.slots[i := p.slots[i].(used := p.clock + 1)], p.clock + 1)
    else p
  }

  predicate Candidate(slots: seq<Slot>, required: set<nat>, i: nat) {
    i < |slots| && (!slots[i].mapped || slots[i].page !in required)
  }

  /** The slot to take: the first free one or, when none is free, the least recently used slot
    * whose page is not part of the request. */
  predicate IsVictim(slots: seq<Slot>, required: set<nat>, i: nat) {
    && Candidate(slots, required, i)
    && (if slots[i].mapped then
          && (forall j :: 0 <= j < |slots| ==> slots[j].mapped)
          && (forall j :: 0 <= j < |slots| && Candidate(slots, required, j) ==> slots[i].used <= slots[j].used)
        else
          forall j :: 0 <= j < i ==> slots[j].mapped)
  }

  ghost function Victim(slots: seq<Slot>, required: set<nat>): (i: nat)
    requires exists i: nat :: IsVictim(slots, required, i)
    ensures IsVictim(slots, required, i)
  {
    var i: nat :| IsVictim(slots, required, i);
    i
  }

  /** A missing page takes the victim's slot; the staging lane takes the second tick. */
  ghost function Load(p: Pool, page: nat, required: set<nat>): Pool {
    if exists i: nat :: IsVictim(p.slots, required, i) then
      Pool(p.slots[Victim(p.slots, required) := Slot(page, p.clock + 1, true)], p.clock + 2)
    else p
  }

  ghost function HitAll(p: Pool, pages: seq<nat>): Pool {
    if pages == [] then p else Hit(HitAll(p, pages[..|pages| - 1]), pages[|pages| - 1])
  }

  ghost function LoadAll(p: Pool, pages: seq<nat>, required: set<nat>): Pool {
    if pages == [] then p else Load(LoadAll(p, pages[..|pages| - 1], required), pages[|pages| - 1], required)
  }

  ghost function Missing(slots: seq<Slot>, pages: seq<nat>): seq<nat> {
    if pages == [] then []
    else Missing(slots, pages[..|pages| - 1]) + if Resident(slots, pages[|pages| - 1]) then [] else [pages[|pages| - 1]]
  }

  function Elements(pages: seq<nat>): set<nat> {
    set p | p in pages
  }

  predicate Distinct(pages: seq<nat>) {
    forall i, j :: 0 <= i < j < |pages| ==> pages[i] != pages[j]
  }

  /** One whole request. */
  ghost function Request(p: Pool, pages: seq<nat>): Pool {
    LoadAll(HitAll(p, pages), Missing(p.slots, pages), Elements(pages))
  }

  // ----- What every request keeps -----

  lemma SlotOfUnique(p: Pool, i: nat, page: nat)
    requires PoolOk(p) && Holds(p.slots, i, page)
    ensures Resident(p.slots, page) && SlotOf(p.slots, page) == i
  {
  }

  lemma VictimUnique(p: Pool, required: set<nat>, i: nat)
    requires PoolOk(p) && IsVictim(p.slots, required, i)
    ensures Victim(p.slots, required) == i
  {
    var v := Victim(p.slots, required);
  }

  /** The slots once slot `v` has been given up. */
  function Cleared(slots: seq<Slot>, v: nat): (r: seq<Slot>)
    requires v < |slots|
    ensures |r| == |slots| && !r[v].mapped
  {
    if slots[v].mapped then slots[v := slots[v].(mapped := false)] else slots
  }

  /** What a load does, in terms of the slot the scan chose; the slot is cleared first if in use. */
  lemma LoadAtVictim(p: Pool, required: set<nat>, page: nat, v: nat)
    requires PoolOk(p) && IsVictim(p.slots, required, v)
    ensures Load(p, page, required) == Pool(p.slots[v := Slot(page, p.clock + 1, true)], p.clock + 2)
    ensures Cleared(p.slots, v)[v := Slot(page, p.clock + 1, true)] == Load(p, page, required).slots
    ensures |Evicted(p, required)| == if p.slots[v].mapped then 1 else 0
  {
    VictimUnique(p, required, v);
  }

  /** The page a load evicts, if the victim was in use. */
  ghost function Evicted(p: Pool, required: set<nat>): set<nat>
    requires exists i: nat :: IsVictim(p.slots, required, i)
  {
    var v := Victim(p.slots, required);
    if p.slots[v].mapped then {p.slots[v].page} else {}
  }

  lemma HitKeeps(p: Pool, page: nat)
    requires PoolOk(p)
    ensures PoolOk(Hit(p, page)) && |Hit(p, page).slots| == |p.slots|
    ensures forall i: nat, q :: Holds(Hit(p, page).slots, i, q) <==> Holds(p.slots, i, q)
    ensures forall q :: Resident(Hit(p, page).slots, q) <==> Resident(p.slots, q)
  {
    var p' := Hit(p, page);
    assert forall i: nat, q :: Holds(p'.slots, i, q) <==> Holds(p.slots, i, q);
    forall q ensures Resident(p'.slots, q) <==> Resident(p.slots, q) {
      if i: nat :| Holds(p.slots, i, q) { assert Holds(p'.slots, i, q); }
      if i: nat :| Holds(p'.slots, i, q) { assert Holds(p.slots, i, q); }
    }
  }

  lemma {:induction false} HitAllKeeps(p: Pool, pages: seq<nat>)
    requires PoolOk(p)
    ensures PoolOk(HitAll(p, pages)) && |HitAll(p, pages).slots| == |p.slots|
    ensures forall i: nat, q :: Holds(HitAll(p, pages).slots, i, q) <==> Holds(p.slots, i, q)
    ensures forall q :: Resident(HitAll(p, pages).slots, q) <==> Resident(p.slots, q)
  {
    if pages != [] {
      HitAllKeeps(p, pages[..|pages| - 1]);
      HitKeeps(HitAll(p, pages[..|pages| - 1]), pages[|pages| - 1]);
    }
  }

  lemma {:induction false} MissingElements(slots: seq<Slot>, pages: seq<nat>)
    ensures forall q :: q in Missing(slots, pages) <==> q in pages && !Resident(slots, q)
    ensures Distinct(pages) ==> Distinct(Missing(slots, pages))
    ensures |Missing(slots, pages)| <= |pages|
  {
    if pages != [] {
      var init := pages[..|pages| - 1];
      MissingElements(slots, init);
      assert pages == init + [pages[|pages| - 1]];
    }
  }

  /** The missing pages come in request order. */
  lemma {:induction false} MissingInOrder(slots: seq<Slot>, pages: seq<nat>, i: nat, j: nat)
    requires Distinct(pages) && i < j < |Missing(slots, pages)|
    ensures Missing(slots, pages)[i] in pages && Missing(slots, pages)[j] in pages
    ensures Index(pages, Missing(slots, pages)[i]) < Index(pages, Missing(slots, pages)[j])
  {
    var init, missing := pages[..|pages| - 1], Missing(slots, pages);
    assert pages == init + [pages[|pages| - 1]];
    MissingElements(slots, init);
    MissingElements(slots, pages);
    assert missing[i] in missing && missing[j] in missing;
    if j < |Missing(slots, init)| {
      MissingInOrder(slots, init, i, j);
    } else {
      assert Missing(slots, init)[i] in Missing(slots, init);
    }
  }

  lemma {:induction false} MappedUpdate(slots: seq<Slot>, i: nat, s: Slot)
    requires i < |slots|
    ensures Mapped(slots[i := s]) + (if slots[i].mapped then 1 else 0) == Mapped(slots) + (if s.mapped then 1 else 0)
  {
    var init := slots[..|slots| - 1];
    if i == |slots| - 1 {
      assert slots[i := s][..|slots| - 1] == init;
    } else {
      assert slots[i := s][..|slots| - 1] == init[i := s];
      MappedUpdate(init, i, s);
    }
  }

  lemma {:induction false} MappedCountsPages(slots: seq<Slot>)
    requires forall i, j :: 0 <= i < j < |slots| && slots[i].mapped && slots[j].mapped ==> slots[i].page != slots[j].page
    ensures |PagesOf(slots)| == Mapped(slots)
  {
    if slots != [] {
      var init, last := slots[..|slots| - 1], slots[|slots| - 1];
      MappedCountsPages(init);
      assert PagesOf(slots) == PagesOf(init) + if last.mapped then {last.page} else {};
    }
  }

  lemma {:induction false} AllMapped(slots: seq<Slot>)
    ensures Mapped(slots) == |slots| <==> forall i :: 0 <= i < |slots| ==> slots[i].mapped
  {
    if slots != [] {
      AllMapped(slots[..|slots| - 1]);
    }
  }

  /** The first free slot, if any slot is free. */
  lemma {:induction false} FreeSlotIsVictim(slots: seq<Slot>, required: set<nat>, i: nat)
    requires i < |slots| && !slots[i].mapped
    ensures exists v: nat :: IsVictim(slots, required, v)
  {
    if j: nat :| j < i && !slots[j].mapped {
      FreeSlotIsVictim(slots, required, j);
    } else {
      assert IsVictim(slots, required, i);
    }
  }

  lemma {:induction false} LeastIsVictim(slots: seq<Slot>, required: set<nat>, i: nat)
    requires forall j :: 0 <= j < |slots| ==> slots[j].mapped
    requires Candidate(slots, required, i)
    ensures exists v: nat :: IsVictim(slots, required, v)
    decreases slots[i].used
  {
    if j: nat :| j < |slots| && Candidate(slots, required, j) && slots[j].used < slots[i].used {
      LeastIsVictim(slots, required, j);
    } else {
      assert IsVictim(slots, required, i);
    }
  }

  /** There is always a slot to take: a request never asks for more pages than there are slots. */
  lemma VictimExists(p: Pool, required: set<nat>, page: nat)
    requires PoolOk(p) && |required| <= |p.slots|
    requires page in required && !Resident(p.slots, page)
    ensures exists v: nat :: IsVictim(p.slots, required, v)
  {
    if i: nat :| i < |p.slots| && !p.slots[i].mapped {
      FreeSlotIsVictim(p.slots, required, i);
    } else if i: nat :| Candidate(p.slots, required, i) {
      LeastIsVictim(p.slots, required, i);
    } else {
      MappedCountsPages(p.slots);
      AllMapped(p.slots);
      assert page !in PagesOf(p.slots) by {
        if page in PagesOf(p.slots) {
          var i :| 0 <= i < |p.slots| && p.slots[i].mapped && p.slots[i].page == page;
          assert Holds(p.slots, i, page);
        }
      }
      assert PagesOf(p.slots) <= required - {page} by {
        forall q | q in PagesOf(p.slots) ensures q in required {
          var i: nat :| i < |p.slots| && p.slots[i].mapped && p.slots[i].page == q;
          assert !Candidate(p.slots, required, i);
        }
      }
      CardinalityMonotone(PagesOf(p.slots), required - {page});
    }
  }

  lemma {:induction false} CardinalityMonotone(a: set<nat>, b: set<nat>)
    requires a <= b
    ensures |a| <= |b|
    decreases |a|
  {
    if x :| x in a {
      CardinalityMonotone(a - {x}, b - {x});
    }
  }

  lemma LoadKeeps(p: Pool, page: nat, required: set<nat>)
    requires PoolOk(p) && !Resident(p.slots, page)
    requires exists i: nat :: IsVictim(p.slots, required, i)
    ensures PoolOk(Load(p, page, required)) && |Load(p, page, required).slots| == |p.slots|
    ensures Evicted(p, required) !! required
    ensures forall q :: Resident(Load(p, page, required).slots, q) <==>
              q == page || (Resident(p.slots, q) && q !in Evicted(p, required))
  {
    var v := Victim(p.slots, required);
    var p' := Load(p, page, required);
    forall i: nat | i < |p.slots| && p.slots[i].mapped ensures p.slots[i].page != page {
      assert p.slots[i].page == page ==> Holds(p.slots, i, page);
    }
    forall q
      ensures Resident(p'.slots, q) <==> q == page || (Resident(p.slots, q) && q !in Evicted(p, required))
    {
      if i: nat :| Holds(p'.slots, i, q) {
        assert i != v ==> Holds(p.slots, i, q);
      }
      if i: nat :| Holds(p.slots, i, q) {
        assert i != v ==> Holds(p'.slots, i, q);
      }
      assert Holds(p'.slots, v, page);
    }
  }

  /** In the middle of a request: the first missing pages are in, no page of the request is lost. */
  lemma {:induction false} LoadAllKeeps(p: Pool, pages: seq<nat>, required: set<nat>)
    requires PoolOk(p) && |required| <= |p.slots| && Distinct(pages)
    requires forall q :: q in pages ==> q in required && !Resident(p.slots, q)
    ensures PoolOk(LoadAll(p, pages, required)) && |LoadAll(p, pages, required).slots| == |p.slots|
    ensures forall q :: q in pages || (q in required && Resident(p.slots, q)) ==> Resident(LoadAll(p, pages, required).slots, q)
    ensures forall q :: Resident(LoadAll(p, pages, required).slots, q) ==> q in pages || Resident(p.slots, q)
  {
    if pages != [] {
      var init, last := pages[..|pages| - 1], pages[|pages| - 1];
      assert pages == init + [last];
      LoadAllKeeps(p, init, required);
      VictimExists(LoadAll(p, init, required), required, last);
      LoadKeeps(LoadAll(p, init, required), last, required);
    }
  }

  /** After a request every page it names is resident; nothing appears that was not asked for. */
  lemma RequestKeeps(p: Pool, pages: seq<nat>)
    requires PoolOk(p) && Distinct(pages) && |pages| <= |p.slots|
    ensures PoolOk(Request(p, pages)) && |Request(p, pages).slots| == |p.slots|
    ensures forall q :: q in pages ==> Resident(Request(p, pages).slots, q)
    ensures forall q :: Resident(Request(p, pages).slots, q) ==> q in pages || Resident(p.slots, q)
  {
    HitAllKeeps(p, pages);
    MissingElements(p.slots, pages);
    DistinctCount(pages);
    LoadAllKeeps(HitAll(p, pages), Missing(p.slots, pages), Elements(pages));
  }

  lemma {:induction false} DistinctCount(pages: seq<nat>)
    requires Distinct(pages)
    ensures |Elements(pages)| == |pages|
  {
    if pages != [] {
      var init, last := pages[..|pages| - 1], pages[|pages| - 1];
      DistinctCount(init);
      assert pages == init + [last];
      assert Elements(pages) == Elements(init) + {last};
    }
  }

  // ----- The recency list -----

  ghost function Stamp(slots: seq<Slot>, page: nat): nat {
    if Resident(slots, page) then slots[SlotOf(slots, page)].used else 0
  }

  ghost predicate Increasing(slots: seq<Slot>, list: seq<nat>) {
    forall a, b :: 0 <= a < b < |list| ==> Stamp(slots, list[a]) < Stamp(slots, list[b])
  }

  /** `recency` lists the resident pages, least recently used first. */
  ghost predicate Orders(slots: seq<Slot>, recency: seq<nat>) {
    && (forall q :: q in recency <==> Resident(slots, q))
    && Increasing(slots, recency)
  }

  /** Where the page is in a list of distinct pages. */
  ghost function Index(list: seq<nat>, page: nat): (k: nat)
    requires page in list
    ensures k < |list| && list[k] == page
  {
    var k: nat :| k < |list| && list[k] == page;
    k
  }

  function Drop(list: seq<nat>, k: nat): seq<nat>
    requires k < |list|
  {
    list[..k] + list[k + 1..]
  }

  /** The least recently used page outside the request. */
  function Oldest(list: seq<nat>, required: set<nat>): (k: nat)
    requires exists q :: q in list && q !in required
    ensures k < |list| && list[k] !in required
    ensures forall j :: 0 <= j < k ==> list[j] in required
  {
    if list[0] !in required then 0 else 1 + Oldest(list[1..], required)
  }

  /** A hit moves the page to the back. */
  ghost function Touch(list: seq<nat>, page: nat): seq<nat> {
    if page in list then Drop(list, Index(list, page)) + [page] else list
  }

  /** When no room is left, the oldest page outside the request goes. */
  function Room(list: seq<nat>, required: set<nat>, capacity: nat): seq<nat> {
    if |list| >= capacity && exists q :: q in list && q !in required then Drop(list, Oldest(list, required)) else list
  }

  /** A miss takes free room, or the place of the oldest page outside the request. */
  function Place(list: seq<nat>, page: nat, required: set<nat>, capacity: nat): seq<nat> {
    Room(list, required, capacity) + [page]
  }

  ghost function TouchAll(list: seq<nat>, pages: seq<nat>): seq<nat> {
    if pages == [] then list else Touch(TouchAll(list, pages[..|pages| - 1]), pages[|pages| - 1])
  }

  function PlaceAll(list: seq<nat>, pages: seq<nat>, required: set<nat>, capacity: nat): seq<nat> {
    if pages == [] then list else Place(PlaceAll(list, pages[..|pages| - 1], required, capacity), pages[|pages| - 1], required, capacity)
  }

  function Absent(list: seq<nat>, pages: seq<nat>): seq<nat> {
    if pages == [] then []
    else Absent(list, pages[..|pages| - 1]) + if pages[|pages| - 1] in list then [] else [pages[|pages| - 1]]
  }

  /** A whole request on the recency list: no clock, no slots. */
  ghost function Serve(list: seq<nat>, pages: seq<nat>, capacity: nat): seq<nat> {
    PlaceAll(TouchAll(list, pages), Absent(list, pages), Elements(pages), capacity)
  }

  lemma OrdersDistinct(p: Pool, recency: seq<nat>)
    requires PoolOk(p) && Orders(p.slots, recency)
    ensures Distinct(recency) && |recency| == Mapped(p.slots)
  {
    forall i, j | 0 <= i < j < |recency| ensures recency[i] != recency[j] {
      assert Stamp(p.slots, recency[i]) < Stamp(p.slots, recency[j]);
    }
    DistinctCount(recency);
    MappedCountsPages(p.slots);
    assert Elements(recency) == PagesOf(p.slots) by {
      forall q | q in recency ensures q in PagesOf(p.slots) {
        assert Holds(p.slots, SlotOf(p.slots, q), q);
      }
      forall q | q in PagesOf(p.slots) ensures q in recency {
        var i: nat :| i < |p.slots| && p.slots[i].mapped && p.slots[i].page == q;
        assert Holds(p.slots, i, q);
      }
    }
  }

  /** Dropping one page of a list of distinct pages leaves exactly the others. */
  lemma DropElements(list: seq<nat>, k: nat)
    requires k < |list| && Distinct(list)
    ensures forall q :: q in Drop(list, k) <==> q in list && q != list[k]
    ensures Distinct(Drop(list, k)) && |Drop(list, k)| == |list| - 1
  {
    assert list == list[..k] + [list[k]] + list[k + 1..];
  }

  lemma DropIncreasing(slots: seq<Slot>, list: seq<nat>, k: nat)
    requires k < |list| && Increasing(slots, list)
    ensures Increasing(slots, Drop(list, k))
  {
    var rest := Drop(list, k);
    forall a, b | 0 <= a < b < |rest| ensures Stamp(slots, rest[a]) < Stamp(slots, rest[b]) {
      var a', b' := if a < k then a else a + 1, if b < k then b else b + 1;
      assert rest[a] == list[a'] && rest[b] == list[b'];
    }
  }

  /** Putting the most recently stamped page at the back keeps the list in order. */
  lemma AppendIncreasing(slots: seq<Slot>, slots': seq<Slot>, list: seq<nat>, page: nat)
    requires Increasing(slots, list)
    requires forall q :: q in list ==> Stamp(slots', q) == Stamp(slots, q) && Stamp(slots, q) < Stamp(slots', page)
    ensures Increasing(slots', list + [page])
  {
    var list' := list + [page];
    forall a, b | 0 <= a < b < |list'| ensures Stamp(slots', list'[a]) < Stamp(slots', list'[b]) {
      assert list'[a] == list[a] && list[a] in list;
      if b < |list| {
        assert list'[b] == list[b] && list[b] in list;
      }
    }
  }

  lemma StampOfHolder(p: Pool, i: nat, page: nat)
    requires PoolOk(p) && Holds(p.slots, i, page)
    ensures Stamp(p.slots, page) == p.slots[i].used
  {
    SlotOfUnique(p, i, page);
  }

  lemma StampAfterHit(p: Pool, page: nat, q: nat)
    requires PoolOk(p) && Resident(p.slots, page) && Resident(p.slots, q)
    ensures Stamp(Hit(p, page).slots, q) == if q == page then p.clock + 1 else Stamp(p.slots, q)
    ensures Stamp(p.slots, q) <= p.clock
  {
    HitKeeps(p, page);
    StampOfHolder(Hit(p, page), SlotOf(p.slots, q), q);
  }

  lemma HitRefines(p: Pool, recency: seq<nat>, page: nat)
    requires PoolOk(p) && Orders(p.slots, recency)
    ensures Orders(Hit(p, page).slots, Touch(recency, page))
  {
    HitKeeps(p, page);
    OrdersDistinct(p, recency);
    if page in recency {
      var k := Index(recency, page);
      DropElements(recency, k);
      DropIncreasing(p.slots, recency, k);
      forall q | q in recency
        ensures Stamp(Hit(p, page).slots, q) == (if q == page then p.clock + 1 else Stamp(p.slots, q)) && Stamp(p.slots, q) <= p.clock
      {
        StampAfterHit(p, page, q);
      }
      AppendIncreasing(p.slots, Hit(p, page).slots, Drop(recency, k), page);
    }
  }

  /** A hit maps nothing new. */
  lemma MappedAfterHit(p: Pool, page: nat)
    requires PoolOk(p)
    ensures Mapped(Hit(p, page).slots) == Mapped(p.slots)
  {
    if Resident(p.slots, page) {
      var i := SlotOf(p.slots, page);
      MappedUpdate(p.slots, i, p.slots[i].(used := p.clock + 1));
    }
  }

  /** A load maps one page more, less the one it evicts. */
  lemma MappedAfter(p: Pool, page: nat, required: set<nat>)
    requires PoolOk(p) && exists i: nat :: IsVictim(p.slots, required, i)
    ensures Mapped(Load(p, page, required).slots) + |Evicted(p, required)| == Mapped(p.slots) + 1
  {
    MappedUpdate(p.slots, Victim(p.slots, required), Slot(page, p.clock + 1, true));
  }

  /** The slots after a load at the victim, and how many of them are mapped. */
  lemma TakenSlots(p: Pool, required: set<nat>, page: nat, v: nat, taken: seq<Slot>)
    requires PoolOk(p) && IsVictim(p.slots, required, v) && taken == Cleared(p.slots, v)[v := Slot(page, p.clock + 1, true)]
    ensures Load(p, page, required) == Pool(taken, p.clock + 2)
    ensures Mapped(taken) + (if p.slots[v].mapped then 1 else 0) == Mapped(p.slots) + 1
  {
    LoadAtVictim(p, required, page, v);
    MappedAfter(p, page, required);
  }

  lemma StampAfterLoad(p: Pool, page: nat, required: set<nat>, q: nat)
    requires PoolOk(p) && !Resident(p.slots, page)
    requires exists i: nat :: IsVictim(p.slots, required, i)
    requires q == page || (Resident(p.slots, q) && q !in Evicted(p, required))
    ensures Stamp(Load(p, page, required).slots, q) == if q == page then p.clock + 1 else Stamp(p.slots, q)
    ensures q != page ==> Stamp(p.slots, q) <= p.clock
  {
    LoadKeeps(p, page, required);
    var p' := Load(p, page, required);
    StampOfHolder(p', if q == page then Victim(p.slots, required) else SlotOf(p.slots, q), q);
  }

  /** The victim scan takes exactly the page at the front of what may go. */
  lemma VictimIsOldest(p: Pool, recency: seq<nat>, required: set<nat>)
    requires PoolOk(p) && Orders(p.slots, recency)
    requires exists i: nat :: IsVictim(p.slots, required, i)
    ensures |recency| >= |p.slots| <==> Evicted(p, required) != {}
    ensures Evicted(p, required) != {} ==>
              && (exists q :: q in recency && q !in required)
              && Evicted(p, required) == {recency[Oldest(recency, required)]}
  {
    OrdersDistinct(p, recency);
    AllMapped(p.slots);
    var v := Victim(p.slots, required);
    if p.slots[v].mapped {
      var e := p.slots[v].page;
      assert Holds(p.slots, v, e);
      StampOfHolder(p, v, e);
      assert e in recency && e !in required;
      var k := Oldest(recency, required);
      var i := SlotOf(p.slots, recency[k]);
      StampOfHolder(p, i, recency[k]);
      assert Candidate(p.slots, required, i);
      assert Stamp(p.slots, e) <= Stamp(p.slots, recency[k]);
      var at := Index(recency, e);
      assert k <= at;
    }
  }

  lemma RoomRefines(p: Pool, recency: seq<nat>, required: set<nat>)
    requires PoolOk(p) && Orders(p.slots, recency)
    requires exists i: nat :: IsVictim(p.slots, required, i)
    ensures Increasing(p.slots, Room(recency, required, |p.slots|))
    ensures forall q :: q in Room(recency, required, |p.slots|) <==> Resident(p.slots, q) && q !in Evicted(p, required)
  {
    VictimIsOldest(p, recency, required);
    OrdersDistinct(p, recency);
    if Evicted(p, required) != {} {
      var k := Oldest(recency, required);
      DropElements(recency, k);
      DropIncreasing(p.slots, recency, k);
    }
  }

  lemma LoadRefines(p: Pool, recency: seq<nat>, page: nat, required: set<nat>)
    requires PoolOk(p) && Orders(p.slots, recency)
    requires page in required && |required| <= |p.slots| && !Resident(p.slots, page)
    ensures Orders(Load(p, page, required).slots, Place(recency, page, required, |p.slots|))
  {
    VictimExists(p, required, page);
    LoadKeeps(p, page, required);
    RoomRefines(p, recency, required);
    var rest, p' := Room(recency, required, |p.slots|), Load(p, page, required);
    StampAfterLoad(p, page, required, page);
    forall q | q in rest ensures Stamp(p'.slots, q) == Stamp(p.slots, q) && Stamp(p.slots, q) < Stamp(p'.slots, page) {
      StampAfterLoad(p, page, required, q);
    }
    AppendIncreasing(p.slots, p'.slots, rest, page);
  }

  // ----- The stamps of a request, without any list -----

  /** Looking the pages up stamps those that are resident later than anything before, and no other. */
  lemma {:induction false} HitStamp(p: Pool, pages: seq<nat>, q: nat)
    requires PoolOk(p) && Resident(p.slots, q)
    ensures var p' := HitAll(p, pages);
            && p.clock <= p'.clock && Stamp(p'.slots, q) <= p'.clock
            && if q in pages then p.clock < Stamp(p'.slots, q) else Stamp(p'.slots, q) == Stamp(p.slots, q)
  {
    StampOfHolder(p, SlotOf(p.slots, q), q);
    if pages != [] {
      var init, last := pages[..|pages| - 1], pages[|pages| - 1];
      assert pages == init + [last];
      HitStamp(p, init, q);
      HitAllKeeps(p, init);
      if Resident(HitAll(p, init).slots, last) {
        StampAfterHit(HitAll(p, init), last, q);
      }
    }
  }

  /** In request order. */
  lemma {:induction false} HitsInOrder(p: Pool, pages: seq<nat>, i: nat, j: nat)
    requires PoolOk(p) && Distinct(pages) && i < j < |pages| && Resident(p.slots, pages[i]) && Resident(p.slots, pages[j])
    ensures Stamp(HitAll(p, pages).slots, pages[i]) < Stamp(HitAll(p, pages).slots, pages[j])
  {
    var init, last := pages[..|pages| - 1], pages[|pages| - 1];
    HitAllKeeps(p, init);
    if j < |init| {
      HitsInOrder(p, init, i, j);
      HitElsewhere(HitAll(p, init), last, pages[i], pages[j]);
    } else {
      StampAfterHit(HitAll(p, init), last, pages[i]);
      StampAfterHit(HitAll(p, init), last, pages[j]);
    }
  }

  lemma HitElsewhere(p: Pool, page: nat, a: nat, b: nat)
    requires PoolOk(p) && Resident(p.slots, a) && Resident(p.slots, b) && a != page && b != page
    ensures Stamp(Hit(p, page).slots, a) == Stamp(p.slots, a) && Stamp(Hit(p, page).slots, b) == Stamp(p.slots, b)
  {
    if Resident(p.slots, page) {
      StampAfterHit(p, page, a);
      StampAfterHit(p, page, b);
    }
  }

  /** Loading stamps what it loads later than anything before, and leaves the stamps of what stays. */
  lemma {:induction false} LoadStamp(p: Pool, pages: seq<nat>, required: set<nat>, q: nat)
    requires PoolOk(p) && |required| <= |p.slots| && Distinct(pages)
    requires forall r :: r in pages ==> r in required && !Resident(p.slots, r)
    requires Resident(LoadAll(p, pages, required).slots, q)
    ensures var p' := LoadAll(p, pages, required);
            && p.clock <= p'.clock && Stamp(p'.slots, q) <= p'.clock
            && if q in pages then p.clock < Stamp(p'.slots, q)
               else Resident(p.slots, q) && Stamp(p'.slots, q) == Stamp(p.slots, q)
  {
    if pages == [] {
      StampOfHolder(p, SlotOf(p.slots, q), q);
    } else {
      var init, last := pages[..|pages| - 1], pages[|pages| - 1];
      assert pages == init + [last];
      var before := LoadAll(p, init, required);
      LoadAllKeeps(p, init, required);
      VictimExists(before, required, last);
      LoadKeeps(before, last, required);
      StampAfterLoad(before, last, required, q);
      LoadClock(p, init, required);
      if q != last {
        LoadStamp(p, init, required, q);
      }
    }
  }

  lemma {:induction false} LoadClock(p: Pool, pages: seq<nat>, required: set<nat>)
    ensures p.clock <= LoadAll(p, pages, required).clock
  {
    if pages != [] {
      LoadClock(p, pages[..|pages| - 1], required);
    }
  }

  /** In the order of the loads. */
  lemma {:induction false} LoadsInOrder(p: Pool, pages: seq<nat>, required: set<nat>, i: nat, j: nat)
    requires PoolOk(p) && |required| <= |p.slots| && Distinct(pages) && i < j < |pages|
    requires forall r :: r in pages ==> r in required && !Resident(p.slots, r)
    ensures var after := LoadAll(p, pages, required).slots;
            Resident(after, pages[i]) && Resident(after, pages[j]) && Stamp(after, pages[i]) < Stamp(after, pages[j])
  {
    var init, last := pages[..|pages| - 1], pages[|pages| - 1];
    assert pages == init + [last];
    var before := LoadAll(p, init, required);
    LoadAllKeeps(p, init, required);
    LoadAllKeeps(p, pages, required);
    VictimExists(before, required, last);
    LoadKeeps(before, last, required);
    StampAfterLoad(before, last, required, pages[i]);
    StampAfterLoad(before, last, required, pages[j]);
    if j < |init| {
      LoadsInOrder(p, init, required, i, j);
    }
  }

  /** Where the pages of a request come in the order of use: after all others; those that were resident
    * before those that were not; and the pages of either kind in request order. */
  predicate StampedBefore(resident: set<nat>, pages: seq<nat>, i: nat, j: nat)
    requires i < |pages| && j < |pages|
  {
    if pages[i] in resident then pages[j] in resident ==> i < j else pages[j] !in resident && i < j
  }

  /** One whole request, in stamps: the pages asked for are stamped later than all others, in the
    * order above, and nothing else is stamped. */
  lemma RequestStamps(p: Pool, pages: seq<nat>, i: nat, j: nat)
    requires PoolOk(p) && Distinct(pages) && |pages| <= |p.slots|
    requires i < |pages| && j < |pages| && i != j && StampedBefore(PagesOf(p.slots), pages, i, j)
    ensures var after := Request(p, pages).slots; p.clock < Stamp(after, pages[i]) < Stamp(after, pages[j])
  {
    var hit, missing, required := HitAll(p, pages), Missing(p.slots, pages), Elements(pages);
    HitAllKeeps(p, pages);
    MissingElements(p.slots, pages);
    DistinctCount(pages);
    RequestKeeps(p, pages);
    assert pages[i] in pages && pages[j] in pages;
    PageIsMapped(p.slots, pages[i]);
    PageIsMapped(p.slots, pages[j]);
    LoadStamp(hit, missing, required, pages[i]);
    LoadStamp(hit, missing, required, pages[j]);
    if Resident(p.slots, pages[i]) {
      HitStamp(p, pages, pages[i]);
      if Resident(p.slots, pages[j]) {
        HitsInOrder(p, pages, i, j);
      }
    } else {
      HitClock(p, pages);
      var a, b := MissingFrom(p.slots, pages, i, j);
      LoadsInOrder(hit, missing, required, a, b);
    }
  }

  /** Where two missing pages of a request come among the missing. */
  lemma {:induction false} MissingFrom(slots: seq<Slot>, pages: seq<nat>, i: nat, j: nat) returns (a: nat, b: nat)
    requires i < j < |pages| && !Resident(slots, pages[i]) && !Resident(slots, pages[j])
    ensures a < b < |Missing(slots, pages)| && Missing(slots, pages)[a] == pages[i] && Missing(slots, pages)[b] == pages[j]
  {
    var init := pages[..|pages| - 1];
    if j < |init| {
      a, b := MissingFrom(slots, init, i, j);
    } else {
      MissingElements(slots, init);
      assert init[i] in init;
      a, b := Index(Missing(slots, init), pages[i]), |Missing(slots, init)|;
    }
  }

  lemma {:induction false} HitClock(p: Pool, pages: seq<nat>)
    ensures p.clock <= HitAll(p, pages).clock
  {
    if pages != [] {
      HitClock(p, pages[..|pages| - 1]);
    }
  }

  lemma PageIsMapped(slots: seq<Slot>, page: nat)
    ensures page in PagesOf(slots) <==> Resident(slots, page)
  {
    if i: nat :| Holds(slots, i, page) {
      assert slots[i].mapped;
    }
    if page in PagesOf(slots) {
      var i :| 0 <= i < |slots| && slots[i].mapped && slots[i].page == page;
      assert Holds(slots, i, page);
    }
  }

  /** A page that is not asked for keeps its stamp as long as it stays. */
  lemma UnaskedKeepStamps(p: Pool, pages: seq<nat>, q: nat)
    requires PoolOk(p) && Distinct(pages) && |pages| <= |p.slots| && q !in pages
    requires Resident(Request(p, pages).slots, q)
    ensures Resident(p.slots, q) && Stamp(Request(p, pages).slots, q) == Stamp(p.slots, q) <= p.clock
  {
    HitAllKeeps(p, pages);
    MissingElements(p.slots, pages);
    DistinctCount(pages);
    LoadStamp(HitAll(p, pages), Missing(p.slots, pages), Elements(pages), q);
    HitStamp(p, pages, q);
    StampOfHolder(p, SlotOf(p.slots, q), q);
  }

  lemma {:induction false} HitAllRefines(p: Pool, recency: seq<nat>, pages: seq<nat>)
    requires PoolOk(p) && Orders(p.slots, recency)
    ensures Orders(HitAll(p, pages).slots, TouchAll(recency, pages))
  {
    if pages != [] {
      var init := pages[..|pages| - 1];
      HitAllRefines(p, recency, init);
      HitAllKeeps(p, init);
      HitRefines(HitAll(p, init), TouchAll(recency, init), pages[|pages| - 1]);
    }
  }

  lemma {:induction false} LoadAllRefines(p: Pool, recency: seq<nat>, pages: seq<nat>, required: set<nat>)
    requires PoolOk(p) && Orders(p.slots, recency) && |required| <= |p.slots| && Distinct(pages)
    requires forall q :: q in pages ==> q in required && !Resident(p.slots, q)
    ensures Orders(LoadAll(p, pages, required).slots, PlaceAll(recency, pages, required, |p.slots|))
  {
    if pages != [] {
      var init, last := pages[..|pages| - 1], pages[|pages| - 1];
      assert pages == init + [last];
      LoadAllRefines(p, recency, init, required);
      LoadAllKeeps(p, init, required);
      LoadRefines(LoadAll(p, init, required), PlaceAll(recency, init, required, |p.slots|), last, required);
    }
  }

  lemma {:induction false} MissingIsAbsent(slots: seq<Slot>, recency: seq<nat>, pages: seq<nat>)
    requires Orders(slots, recency)
    ensures Missing(slots, pages) == Absent(recency, pages)
  {
    if pages != [] {
      MissingIsAbsent(slots, recency, pages[..|pages| - 1]);
    }
  }

  /** The timestamp scans are an LRU replacement with the request pinned: they do to the slots
    * what `Serve` does to the list. */
  lemma RequestRefines(p: Pool, recency: seq<nat>, pages: seq<nat>)
    requires PoolOk(p) && Orders(p.slots, recency) && Distinct(pages) && |pages| <= |p.slots|
    ensures Orders(Request(p, pages).slots, Serve(recency, pages, |p.slots|))
  {
    HitAllKeeps(p, pages);
    HitAllRefines(p, recency, pages);
    MissingElements(p.slots, pages);
    MissingIsAbsent(p.slots, recency, pages);
    DistinctCount(pages);
    LoadAllRefines(HitAll(p, pages), TouchAll(recency, pages), Missing(p.slots, pages), Elements(pages));
  }
}
