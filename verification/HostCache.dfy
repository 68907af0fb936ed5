/** The pinned buffers as a cache of file pages: the pages loaded last, and what that saves in reads. */
module HostCache {
  import opened Pages
  import opened Machines
  import opened Residency
  import opened Budget
  import opened Staging

  // ----- The reference: how recently a page was loaded -----

  /** Fewer than `n` other pages were loaded since the page was last loaded. */
  predicate Recent(loads: seq<nat>, page: nat, n: nat) {
    page in loads && |Since(loads, page)| < n
  }

  /** The loads that find their page among the `n` loaded last. */
  function HostHits(loads: seq<nat>, n: nat): seq<nat> {
    if loads == [] then [] else
      var init, last := loads[..|loads| - 1], loads[|loads| - 1];
      HostHits(init, n) + if Recent(init, last, n) then [last] else []
  }

  lemma HostHitsNext(loads: seq<nat>, page: nat, n: nat)
    ensures HostHits(loads + [page], n) == HostHits(loads, n) + if Recent(loads, page, n) then [page] else []
  {
    assert (loads + [page])[..|loads|] == loads;
  }

  /** The recency list of a run of loads holds exactly the recent pages. */
  lemma RecentIsListed(loads: seq<nat>, page: nat, n: nat)
    requires n > 0
    ensures page in RunList(loads, n) <==> Recent(loads, page, n)
  {
    RunIsSuffix(loads, n);
    HistoryElements(loads);
    if page in loads {
      RankInHistory(loads, page);
      InSuffix(History(loads), n, page);
    }
  }

  // ----- The buffers -----

  /** The page in a buffer, or on its way there. */
  ghost function Held(lanes: seq<Lane>, batch: seq<Item>, l: nat): nat
    requires l < |lanes|
  {
    if Busy(batch, l) then
      var b :| 0 <= b < |batch| && batch[b].lane == l;
      batch[b].page
    else lanes[l].page
  }

  /** The buffers in the form of a pool. */
  ghost function Host(lanes: seq<Lane>, batch: seq<Item>): (host: seq<Slot>)
    ensures |host| == |lanes|
    ensures forall l {:trigger host[l]} :: 0 <= l < |lanes| ==> host[l] == Slot(Held(lanes, batch, l), lanes[l].used, Held(lanes, batch, l) != NO_PAGE)
  {
    seq(|lanes|, l requires 0 <= l < |lanes| => Slot(Held(lanes, batch, l), lanes[l].used, Held(lanes, batch, l) != NO_PAGE))
  }

  /** The items of a batch have buffers and pages of their own. */
  predicate Apart(lanes: seq<Lane>, batch: seq<Item>) {
    && (forall b :: 0 <= b < |batch| ==>
          && batch[b].lane < |lanes| && batch[b].page != NO_PAGE
          && lanes[batch[b].lane].page == if batch[b].read then NO_PAGE else batch[b].page)
    && (forall a, b :: 0 <= a < b < |batch| ==> batch[a].lane != batch[b].lane && batch[a].page != batch[b].page)
  }

  /** The buffers hold the pages loaded last, and their stamps order them as they were loaded. */
  ghost predicate Follows(lanes: seq<Lane>, batch: seq<Item>, clock: nat, loads: seq<nat>) {
    var host := Host(lanes, batch);
    && Apart(lanes, batch)
    && PoolOk(Pool(host, clock)) && Orders(host, RunList(loads, |lanes|))
    && (forall l :: 0 <= l < |lanes| ==> (host[l].mapped <==> 0 < host[l].used))
    && (batch != [] ==> loads != [] && loads[|loads| - 1] == batch[|batch| - 1].page)
  }

  /** Buffers that serve as a cache, or only for staging. */
  datatype Buffers = Buffers(caching: bool, lanes: seq<Lane>, batch: seq<Item>, clock: nat)

  /** What the loads so far imply for the buffers, and for the pages served from them. */
  ghost predicate Tells(buffers: Buffers, loads: seq<nat>, served: seq<nat>) {
    match buffers
    case Buffers(caching, lanes, batch, clock) =>
      if caching then Follows(lanes, batch, clock, loads) && served == HostHits(loads, |lanes|) else served == []
  }

  /** The lane can be taken for the page: it caches the page, or it is free and no lane does. */
  predicate Offers(buffers: Buffers, page: nat, l: nat, hit: bool) {
    match buffers
    case Buffers(caching, lanes, batch, _) =>
      && l < |lanes|
      && if hit then lanes[l].page == page else !Busy(batch, l) && (caching ==> !Cached(lanes, page))
  }

  lemma HeldByItem(lanes: seq<Lane>, batch: seq<Item>, b: nat)
    requires Apart(lanes, batch) && b < |batch|
    ensures Busy(batch, batch[b].lane) && Held(lanes, batch, batch[b].lane) == batch[b].page
  {
  }

  /** A page outside the batch is in a buffer exactly if some lane names it. */
  lemma CachedIsHeld(lanes: seq<Lane>, batch: seq<Item>, page: nat)
    requires Apart(lanes, batch) && page != NO_PAGE && page !in BatchPages(batch)
    ensures forall l: nat :: l < |lanes| ==> (lanes[l].page == page <==> Holds(Host(lanes, batch), l, page))
    ensures Cached(lanes, page) <==> Resident(Host(lanes, batch), page)
  {
    forall b | 0 <= b < |batch| ensures batch[b].page in BatchPages(batch) && Held(lanes, batch, batch[b].lane) == batch[b].page {
      HeldByItem(lanes, batch, b);
    }
    assert forall l: nat :: l < |lanes| ==> (lanes[l].page == page <==> Holds(Host(lanes, batch), l, page));
    if l: nat :| l < |lanes| && lanes[l].page == page {
      assert Holds(Host(lanes, batch), l, page);
    }
  }

  /** The item that joins the batch fills its own buffer and no other. */
  lemma HostAppend(lanes: seq<Lane>, lanes': seq<Lane>, batch: seq<Item>, item: Item)
    requires Apart(lanes, batch) && item.lane < |lanes| && !Busy(batch, item.lane) && item.page != NO_PAGE
    requires |lanes'| == |lanes| && lanes' == lanes[item.lane := lanes'[item.lane]]
    ensures Host(lanes', batch + [item]) == Host(lanes, batch)[item.lane := Slot(item.page, lanes'[item.lane].used, true)]
  {
    var longer := batch + [item];
    forall l: nat | l < |lanes| ensures Held(lanes', longer, l) == if l == item.lane then item.page else Held(lanes, batch, l) {
      assert longer[|batch|] == item;
      if l == item.lane {
        assert forall b :: 0 <= b < |batch| ==> longer[b] == batch[b];
      } else if b :| 0 <= b < |batch| && batch[b].lane == l {
        assert longer[b] == batch[b];
        HeldByItem(lanes, batch, b);
      }
    }
  }

  /** The lanes once one has been taken for a page: stamped and, without a hit, emptied for the read. */
  function TakenAt(lanes: seq<Lane>, l: nat, hit: bool, clock: nat, wanted: nat): (r: seq<Lane>)
    requires l < |lanes|
    ensures |r| == |lanes|
  {
    lanes[l := if hit then lanes[l].(used := clock) else Lane(NO_PAGE, clock, wanted, true)]
  }

  // ----- One load -----

  lemma NextRun(loads: seq<nat>, page: nat, n: nat)
    ensures RunList(loads + [page], n) == Serve(RunList(loads, n), [page], n)
  {
    assert (loads + [page])[..|loads|] == loads;
  }

  /** A buffer that already holds the page takes a new stamp. */
  lemma HitSlot(host: seq<Slot>, host': seq<Slot>, clock: nat, recency: seq<nat>, page: nat, l: nat)
    requires PoolOk(Pool(host, clock)) && Orders(host, recency) && Holds(host, l, page)
    requires host' == host[l := Slot(page, clock + 1, true)]
    ensures PoolOk(Pool(host', clock + 1)) && page in recency && Orders(host', Touch(recency, page))
  {
    HitIs(Pool(host, clock), Pool(host', clock + 1), page, l);
    HitRefines(Pool(host, clock), recency, page);
    HitStaysOk(Pool(host, clock), page);
  }

  lemma HitIs(p: Pool, p': Pool, page: nat, l: nat)
    requires PoolOk(p) && Holds(p.slots, l, page) && p' == Pool(p.slots[l := Slot(page, p.clock + 1, true)], p.clock + 1)
    ensures Resident(p.slots, page) && Hit(p, page) == p'
  {
    SlotOfUnique(p, l, page);
  }

  lemma HitStaysOk(p: Pool, page: nat)
    requires PoolOk(p)
    ensures PoolOk(Hit(p, page))
  {
    HitKeeps(p, page);
  }

  /** A buffer that is to hold the page takes its place in the order. */
  lemma LoadSlot(host: seq<Slot>, host': seq<Slot>, clock: nat, recency: seq<nat>, page: nat, l: nat, required: set<nat>)
    requires PoolOk(Pool(host, clock)) && Orders(host, recency) && IsVictim(host, required, l)
    requires page in required && |required| <= |host| && !Resident(host, page)
    requires host' == host[l := Slot(page, clock + 1, true)]
    ensures PoolOk(Pool(host', clock + 1)) && page !in recency && Orders(host', Place(recency, page, required, |host|))
  {
    LoadAt(Pool(host, clock), Pool(host', clock + 2), recency, page, l, required);
    OneTickLess(host, host', clock, page, l);
  }

  lemma LoadAt(p: Pool, p': Pool, recency: seq<nat>, page: nat, l: nat, required: set<nat>)
    requires PoolOk(p) && Orders(p.slots, recency) && IsVictim(p.slots, required, l)
    requires page in required && |required| <= |p.slots| && !Resident(p.slots, page)
    requires p' == Pool(p.slots[l := Slot(page, p.clock + 1, true)], p.clock + 2)
    ensures PoolOk(p') && Orders(p'.slots, Place(recency, page, required, |p.slots|))
  {
    LoadIs(p, p', page, l, required);
    LoadRefines(p, recency, page, required);
    LoadStaysOk(p, page, required);
  }

  lemma LoadIs(p: Pool, p': Pool, page: nat, l: nat, required: set<nat>)
    requires PoolOk(p) && IsVictim(p.slots, required, l)
    requires p' == Pool(p.slots[l := Slot(page, p.clock + 1, true)], p.clock + 2)
    ensures Load(p, page, required) == p'
  {
    VictimUnique(p, required, l);
  }

  lemma LoadStaysOk(p: Pool, page: nat, required: set<nat>)
    requires PoolOk(p) && page in required && |required| <= |p.slots| && !Resident(p.slots, page)
    ensures PoolOk(Load(p, page, required))
  {
    VictimExists(p, required, page);
    LoadKeeps(p, page, required);
  }

  lemma OneTickLess(host: seq<Slot>, host': seq<Slot>, clock: nat, page: nat, l: nat)
    requires PoolOk(Pool(host, clock)) && l < |host| && host' == host[l := Slot(page, clock + 1, true)]
    requires PoolOk(Pool(host', clock + 2))
    ensures PoolOk(Pool(host', clock + 1))
  {
  }

  /** After the step, in terms of the buffers before and after. */
  lemma NowFollows(lanes: seq<Lane>, lanes': seq<Lane>, batch: seq<Item>, item: Item, clock: nat, loads: seq<nat>)
    requires Follows(lanes, batch, clock, loads)
    requires item.lane < |lanes| && !Busy(batch, item.lane) && item.page != NO_PAGE && item.page !in BatchPages(batch)
    requires |lanes'| == |lanes| && lanes' == lanes[item.lane := lanes'[item.lane]] && lanes'[item.lane].used == clock + 1
    requires lanes'[item.lane].page == if item.read then NO_PAGE else item.page
    requires var host' := Host(lanes, batch)[item.lane := Slot(item.page, clock + 1, true)];
             PoolOk(Pool(host', clock + 1)) && Orders(host', RunList(loads + [item.page], |lanes|))
    ensures Follows(lanes', batch + [item], clock + 1, loads + [item.page])
  {
    HostAppend(lanes, lanes', batch, item);
    ApartAppend(lanes, lanes', batch, item);
  }

  lemma ApartAppend(lanes: seq<Lane>, lanes': seq<Lane>, batch: seq<Item>, item: Item)
    requires Apart(lanes, batch) && item.lane < |lanes| && !Busy(batch, item.lane)
    requires item.page != NO_PAGE && item.page !in BatchPages(batch)
    requires |lanes'| == |lanes| && lanes' == lanes[item.lane := lanes'[item.lane]]
    requires lanes'[item.lane].page == if item.read then NO_PAGE else item.page
    ensures Apart(lanes', batch + [item])
  {
    var longer := batch + [item];
    forall b | 0 <= b < |batch|
      ensures longer[b] == batch[b] && batch[b].lane != item.lane && batch[b].page != item.page
    {
      assert batch[b].page in BatchPages(batch) && Busy(batch, batch[b].lane);
    }
    assert longer[|batch|] == item;
  }

  /** A page that is held becomes the most recent one. */
  lemma HitFollows(lanes: seq<Lane>, lanes': seq<Lane>, batch: seq<Item>, clock: nat, loads: seq<nat>, page: nat, l: nat)
    requires Follows(lanes, batch, clock, loads)
    requires page != NO_PAGE && page !in BatchPages(batch) && l < |lanes| && lanes[l].page == page
    requires lanes' == lanes[l := lanes[l].(used := clock + 1)]
    ensures Follows(lanes', batch + [Item(page, l, false)], clock + 1, loads + [page])
    ensures Recent(loads, page, |lanes|)
  {
    var host, n := Host(lanes, batch), |lanes|;
    CachedIsHeld(lanes, batch, page);
    forall b | 0 <= b < |batch| ensures batch[b].lane != l {
      assert batch[b].page in BatchPages(batch);
    }
    HitSlot(host, host[l := Slot(page, clock + 1, true)], clock, RunList(loads, n), page, l);
    ServeOne(RunList(loads, n), page, n);
    NextRun(loads, page, n);
    RecentIsListed(loads, page, n);
    NowFollows(lanes, lanes', batch, Item(page, l, false), clock, loads);
  }

  /** The first of the least recently used free lanes. */
  predicate LeastFree(lanes: seq<Lane>, batch: seq<Item>, l: nat) {
    && l < |lanes| && !Busy(batch, l)
    && forall k: nat :: k < |lanes| && !Busy(batch, k) ==>
         if k < l then lanes[l].used < lanes[k].used else lanes[l].used <= lanes[k].used
  }

  /** The scan for a free lane is the scan for a victim, with the batch pinned. */
  lemma LeastFreeIsVictim(lanes: seq<Lane>, batch: seq<Item>, clock: nat, loads: seq<nat>, page: nat, l: nat, required: set<nat>)
    requires Follows(lanes, batch, clock, loads) && LeastFree(lanes, batch, l)
    requires required == BatchPages(batch) + {page} && !Resident(Host(lanes, batch), page)
    ensures IsVictim(Host(lanes, batch), required, l)
  {
    var host := Host(lanes, batch);
    forall b | 0 <= b < |batch| ensures Holds(host, batch[b].lane, batch[b].page) && batch[b].page in required {
      HeldByItem(lanes, batch, b);
      assert batch[b].page in BatchPages(batch);
    }
    forall k: nat | k < |lanes| ensures Candidate(host, required, k) <==> !Busy(batch, k) {
      assert host[k].mapped ==> Holds(host, k, host[k].page);
      if host[k].mapped && host[k].page in BatchPages(batch) {
        var b :| 0 <= b < |batch| && batch[b].page == host[k].page;
        assert Holds(host, batch[b].lane, host[k].page);
      }
    }
    assert forall k :: 0 <= k < |host| && !host[k].mapped ==> Candidate(host, required, k);
  }

  /** Pinning the batch changes nothing: its pages are the youngest, and there is always an older one. */
  lemma PinsNothing(recency: seq<nat>, page: nat, required: set<nat>, n: nat)
    requires Distinct(recency) && page !in recency && page in required && |required| <= n
    requires forall q :: q in required && q != page ==> recency != [] && q == recency[|recency| - 1] && 1 < n
    ensures Place(recency, page, required, n) == Place(recency, page, {page}, n)
  {
    if |recency| >= n && n > 0 {
      assert recency[0] in recency;
      forall q | q in required && q != page ensures recency[0] != q {
      }
      assert Oldest(recency, required) == 0 && Oldest(recency, {page}) == 0;
    }
  }

  lemma LastOfRun(loads: seq<nat>, n: nat)
    requires loads != [] && n > 0
    ensures RunList(loads, n) != [] && RunList(loads, n)[|RunList(loads, n)| - 1] == loads[|loads| - 1]
    ensures Distinct(RunList(loads, n))
  {
    RunIsSuffix(loads, n);
    HistoryElements(loads);
  }

  /** A page that is not held takes the buffer that was used the longest time ago. */
  lemma MissFollows(lanes: seq<Lane>, lanes': seq<Lane>, batch: seq<Item>, clock: nat, loads: seq<nat>, page: nat, l: nat, wanted: nat)
    requires Follows(lanes, batch, clock, loads)
    requires page != NO_PAGE && page !in BatchPages(batch) && !Cached(lanes, page)
    requires LeastFree(lanes, batch, l) && |batch| < 2 && |batch| < |lanes|
    requires lanes' == lanes[l := Lane(NO_PAGE, clock + 1, wanted, true)]
    ensures Follows(lanes', batch + [Item(page, l, true)], clock + 1, loads + [page])
    ensures !Recent(loads, page, |lanes|)
  {
    var host, n, required := Host(lanes, batch), |lanes|, BatchPages(batch) + {page};
    CachedIsHeld(lanes, batch, page);
    LeastFreeIsVictim(lanes, batch, clock, loads, page, l, required);
    PinnedPages(batch, page, required);
    if batch != [] {
      LastOfRun(loads, n);
    }
    LoadSlot(host, host[l := Slot(page, clock + 1, true)], clock, RunList(loads, n), page, l, required);
    OrdersDistinct(Pool(host, clock), RunList(loads, n));
    PinsNothing(RunList(loads, n), page, required, n);
    ServeOne(RunList(loads, n), page, n);
    NextRun(loads, page, n);
    RecentIsListed(loads, page, n);
    NowFollows(lanes, lanes', batch, Item(page, l, true), clock, loads);
  }

  /** The lane picked for a page is the one that the order of the loads implies. */
  lemma TakenFollows(lanes: seq<Lane>, lanes': seq<Lane>, batch: seq<Item>, longer: seq<Item>, clock: nat, loads: seq<nat>,
                     page: nat, l: nat, hit: bool, wanted: nat)
    requires Follows(lanes, batch, clock, loads) && |batch| < 2 && |batch| < |lanes|
    requires page != NO_PAGE && page !in BatchPages(batch) && l < |lanes|
    requires hit <==> Cached(lanes, page)
    requires if hit then lanes[l].page == page else LeastFree(lanes, batch, l)
    requires lanes' == TakenAt(lanes, l, hit, clock + 1, wanted) && longer == batch + [Item(page, l, !hit)]
    ensures Follows(lanes', longer, clock + 1, loads + [page])
    ensures hit <==> Recent(loads, page, |lanes|)
    ensures HostHits(loads + [page], |lanes|) == HostHits(loads, |lanes|) + if hit then [page] else []
  {
    HostHitsNext(loads, page, |lanes|);
    if hit {
      HitFollows(lanes, lanes', batch, clock, loads, page, l);
    } else {
      MissFollows(lanes, lanes', batch, clock, loads, page, l, wanted);
    }
  }

  lemma TakenTells(caching: bool, lanes: seq<Lane>, lanes': seq<Lane>, batch: seq<Item>, longer: seq<Item>, clock: nat,
                   loads: seq<nat>, served: seq<nat>, page: nat, l: nat, hit: bool, wanted: nat)
    requires Tells(Buffers(caching, lanes, batch, clock), loads, served) && |batch| < 2 && |batch| < |lanes|
    requires page != NO_PAGE && page !in BatchPages(batch) && l < |lanes|
    requires hit <==> caching && Cached(lanes, page)
    requires if hit then lanes[l].page == page else LeastFree(lanes, batch, l)
    requires lanes' == TakenAt(lanes, l, hit, clock + 1, wanted) && longer == batch + [Item(page, l, !hit)]
    ensures Tells(Buffers(caching, lanes', longer, clock + 1), loads + [page], served + if hit then [page] else [])
    ensures hit <==> caching && Recent(loads, page, |lanes|)
  {
    if caching {
      TakenFollows(lanes, lanes', batch, longer, clock, loads, page, l, hit, wanted);
    }
  }

  lemma NowTells(caching: bool, lanes: seq<Lane>, lanes': seq<Lane>, clock: nat, clock': nat, longer: seq<Item>,
                 loads: seq<nat>, served: seq<nat>, page: nat, l: nat, hit: bool, wanted: nat)
    requires l < |lanes| && clock' == clock + 1 && lanes' == TakenAt(lanes, l, hit, clock', wanted)
    requires Tells(Buffers(caching, TakenAt(lanes, l, hit, clock + 1, wanted), longer, clock + 1), loads + [page], served + if hit then [page] else [])
    ensures Tells(Buffers(caching, lanes', longer, clock'), loads + [page], served + if hit then [page] else [])
  {
  }

  lemma PinnedPages(batch: seq<Item>, page: nat, required: set<nat>)
    requires |batch| < 2 && required == BatchPages(batch) + {page}
    ensures |required| <= |batch| + 1
    ensures forall q :: q in required && q != page ==> batch != [] && q == batch[|batch| - 1].page
  {
    if batch == [] {
      assert required == {page};
    } else {
      assert required == {batch[0].page, page};
    }
  }

  // ----- Between the loads -----

  /** Time stamps given to slots of the device pool do not matter here. */
  lemma TicksFollow(lanes: seq<Lane>, batch: seq<Item>, clock: nat, clock': nat, loads: seq<nat>)
    requires Follows(lanes, batch, clock, loads) && clock <= clock'
    ensures Follows(lanes, batch, clock', loads)
  {
  }

  /** The head of the batch, read or not, leaves its page in its buffer. */
  lemma HeadStays(lanes: seq<Lane>, lanes': seq<Lane>, batch: seq<Item>)
    requires Apart(lanes, batch) && batch != []
    requires |lanes'| == |lanes| && lanes'[batch[0].lane].page == batch[0].page
    requires lanes'[batch[0].lane].used == lanes[batch[0].lane].used && lanes' == lanes[batch[0].lane := lanes'[batch[0].lane]]
    ensures Host(lanes', batch[1..]) == Host(lanes, batch)
  {
    var rest := batch[1..];
    HeldByItem(lanes, batch, 0);
    forall l: nat | l < |lanes| ensures Held(lanes', rest, l) == Held(lanes, batch, l) {
      if b :| 0 <= b < |rest| && rest[b].lane == l {
        assert batch[b + 1] == rest[b];
        HeldByItem(lanes, batch, b + 1);
      } else if l != batch[0].lane {
        assert forall b :: 0 <= b < |batch| ==> batch[b] == if b == 0 then batch[0] else rest[b - 1];
      }
    }
  }

  /** The lanes once an item's page is in its buffer. */
  function Filled(lanes: seq<Lane>, item: Item): (r: seq<Lane>)
    requires item.lane < |lanes|
    ensures |r| == |lanes|
  {
    if item.read then lanes[item.lane := lanes[item.lane].(page := item.page, pending := false)] else lanes
  }

  lemma HeadFollows(lanes: seq<Lane>, lanes': seq<Lane>, batch: seq<Item>, rest: seq<Item>, clock: nat, loads: seq<nat>)
    requires Follows(lanes, batch, clock, loads) && batch != [] && rest == batch[1..]
    requires lanes' == Filled(lanes, batch[0])
    ensures Follows(lanes', rest, clock, loads)
  {
    HeadStays(lanes, lanes', batch);
    ApartTail(lanes, lanes', batch, rest);
  }

  lemma ApartTail(lanes: seq<Lane>, lanes': seq<Lane>, batch: seq<Item>, rest: seq<Item>)
    requires Apart(lanes, batch) && batch != [] && rest == batch[1..] && lanes' == Filled(lanes, batch[0])
    ensures Apart(lanes', rest)
  {
    assert forall b :: 0 <= b < |rest| ==> rest[b] == batch[b + 1];
  }

  lemma HeadTells(caching: bool, lanes: seq<Lane>, lanes': seq<Lane>, batch: seq<Item>, rest: seq<Item>, clock: nat,
                  loads: seq<nat>, served: seq<nat>)
    requires Tells(Buffers(caching, lanes, batch, clock), loads, served) && batch != [] && rest == batch[1..]
    requires batch[0].lane < |lanes| && lanes' == Filled(lanes, batch[0])
    ensures Tells(Buffers(caching, lanes', rest, clock), loads, served)
  {
    if caching {
      HeadFollows(lanes, lanes', batch, rest, clock, loads);
    }
  }

  lemma TicksTell(caching: bool, lanes: seq<Lane>, batch: seq<Item>, clock: nat, clock': nat, loads: seq<nat>, served: seq<nat>)
    requires Tells(Buffers(caching, lanes, batch, clock), loads, served) && clock <= clock'
    ensures Tells(Buffers(caching, lanes, batch, clock'), loads, served)
  {
  }

  // ----- What more buffers save -----

  /** Between requests the buffers hold exactly the `n` pages loaded last. */
  lemma CachedAreRecent(lanes: seq<Lane>, clock: nat, loads: seq<nat>, page: nat)
    requires Follows(lanes, [], clock, loads) && 0 < |lanes| && page != NO_PAGE
    ensures Cached(lanes, page) <==> Recent(loads, page, |lanes|)
  {
    CachedIsHeld(lanes, [], page);
    RecentIsListed(loads, page, |lanes|);
  }

  /** Every load is a host hit or a miss of the recency list of as many pages as there are buffers. */
  lemma {:induction false} HitsAndMisses(loads: seq<nat>, n: nat)
    requires n > 0
    ensures |HostHits(loads, n)| + Misses(loads, n) == |loads|
  {
    if loads != [] {
      var init, last := loads[..|loads| - 1], loads[|loads| - 1];
      HitsAndMisses(init, n);
      RecentIsListed(init, last, n);
    }
  }
}
