/** Demand paging of a file into a bounded pool of device memory. */
module FileTensors {
  import opened Pages
  import opened Machines
  import opened Residency
  import opened Requests
  import opened Staging
  import opened HostCache

  datatype Stats = Stats(
    fileBytes: nat, hits: nat, misses: nat, evictions: nat, hostHits: nat, uploadedBytes: nat,
    residentLimit: nat, stagingBytes: nat, chunkBytes: nat, hostCacheBytes: nat)

  /** What opening a tensor fixes. */
  predicate SameSizes(a: Stats, b: Stats) {
    && a.residentLimit == b.residentLimit && a.stagingBytes == b.stagingBytes
    && a.chunkBytes == b.chunkBytes && a.hostCacheBytes == b.hostCacheBytes
  }

  /** The file bytes held by a list of pages. */
  function Total(g: Geometry, pages: seq<nat>): nat {
    if pages == [] then 0 else
      Total(g, pages[..|pages| - 1]) +
      if g.Valid() && g.Has(pages[|pages| - 1]) then g.Bytes(pages[|pages| - 1]) else 0
  }

  /** The file bytes that a batch still has to upload, or only those it still has to read. */
  function Outstanding(g: Geometry, batch: seq<Item>, readsOnly: bool): nat {
    if batch == [] then 0 else
      Total(g, if readsOnly && !batch[0].read then [] else [batch[0].page]) + Outstanding(g, batch[1..], readsOnly)
  }

  lemma {:induction false} OutstandingAppend(g: Geometry, batch: seq<Item>, item: Item, readsOnly: bool)
    ensures Outstanding(g, batch + [item], readsOnly) ==
            Outstanding(g, batch, readsOnly) + Total(g, if readsOnly && !item.read then [] else [item.page])
  {
    if batch != [] {
      assert (batch + [item])[1..] == batch[1..] + [item];
      OutstandingAppend(g, batch[1..], item, readsOnly);
    } else {
      assert (batch + [item])[1..] == [];
    }
  }

  /** The counters agree with what was loaded, what of it came from the host cache, and what of
    * it is still in the batch. */
  predicate Tally(g: Geometry, counters: Stats, loads: seq<nat>, served: seq<nat>, batch: seq<Item>) {
    match counters
    case Stats(fileBytes, _, misses, _, hostHits, uploadedBytes, _, _, _, _) =>
      && misses == |loads| && hostHits == |served|
      && uploadedBytes + Outstanding(g, batch, false) == Total(g, loads)
      && fileBytes + Outstanding(g, batch, true) + Total(g, served) == Total(g, loads)
  }

  lemma TotalAppend(g: Geometry, pages: seq<nat>, page: nat)
    ensures Total(g, pages + [page]) == Total(g, pages) + Total(g, [page])
  {
    assert (pages + [page])[..|pages|] == pages;
    assert [page][..0] == [];
  }

  lemma TotalOne(g: Geometry, page: nat)
    requires g.Valid() && g.Has(page)
    ensures Total(g, [page]) == g.Bytes(page)
  {
    assert [page][..0] == [];
  }

  /** A page joins the batch, from the disk or from the host cache. */
  lemma TallyStart(g: Geometry, counters: Stats, loads: seq<nat>, served: seq<nat>, batch: seq<Item>, item: Item)
    requires Tally(g, counters, loads, served, batch)
    ensures Tally(g, counters.(misses := counters.misses + 1, hostHits := counters.hostHits + if item.read then 0 else 1),
                  loads + [item.page], served + if item.read then [] else [item.page], batch + [item])
  {
    OutstandingAppend(g, batch, item, false);
    OutstandingAppend(g, batch, item, true);
    TotalAppend(g, loads, item.page);
    TotalAppend(g, served, item.page);
    assert served + [] == served;
  }

  /** The head of the batch has been read. */
  lemma TallyRead(g: Geometry, counters: Stats, loads: seq<nat>, served: seq<nat>, batch: seq<Item>)
    requires Tally(g, counters, loads, served, batch) && batch != [] && batch[0].read
    requires g.Valid() && g.Has(batch[0].page)
    ensures Tally(g, counters.(fileBytes := counters.fileBytes + g.Bytes(batch[0].page)), loads, served,
                  [batch[0].(read := false)] + batch[1..])
  {
    TotalOne(g, batch[0].page);
    var batch' := [batch[0].(read := false)] + batch[1..];
    assert batch'[1..] == batch[1..];
  }

  /** The head of the batch has been uploaded. */
  lemma TallyUpload(g: Geometry, counters: Stats, loads: seq<nat>, served: seq<nat>, batch: seq<Item>)
    requires Tally(g, counters, loads, served, batch) && batch != [] && !batch[0].read
    requires g.Valid() && g.Has(batch[0].page)
    ensures Tally(g, counters.(uploadedBytes := counters.uploadedBytes + g.Bytes(batch[0].page)), loads, served, batch[1..])
  {
    TotalOne(g, batch[0].page);
  }

  /** More buffers never serve fewer pages, nor fewer bytes. */
  lemma {:induction false} MoreBuffersServeMore(g: Geometry, loads: seq<nat>, n: nat, m: nat)
    requires n <= m
    ensures |HostHits(loads, n)| <= |HostHits(loads, m)|
    ensures Total(g, HostHits(loads, n)) <= Total(g, HostHits(loads, m))
  {
    if loads != [] {
      var init, last := loads[..|loads| - 1], loads[|loads| - 1];
      MoreBuffersServeMore(g, init, n, m);
      TotalAppend(g, HostHits(init, n), last);
      TotalAppend(g, HostHits(init, m), last);
      assert HostHits(init, n) + [] == HostHits(init, n) && HostHits(init, m) + [] == HostHits(init, m);
    }
  }

  datatype Outcome = Done | Failed(error: Error)

  const MAXDWORD: nat := 0xFFFF_FFFF
  const SIZE_MAX: nat := 0xFFFF_FFFF_FFFF_FFFF

  datatype Refusal = EmptyFile | BadChunk | NoDriver

  datatype Opened = Opened(tensor: FileTensor) | Refused(why: Refusal)

  predicate ChunkFits(chunk: nat, granularity: nat, budget: nat)
    requires 0 < granularity
  {
    chunk != 0 && chunk % granularity == 0 && chunk <= MAXDWORD && chunk <= budget
  }

  lemma {:induction false} MappedNone(slots: seq<Slot>)
    requires forall i :: 0 <= i < |slots| ==> !slots[i].mapped
    ensures Mapped(slots) == 0
  {
    if slots != [] {
      MappedNone(slots[..|slots| - 1]);
    }
  }

  class FileTensor {
    const g: Geometry
    const caching: bool
    const buffers: nat
    ghost const sizes: Stats  // the counters when it was opened
    var slots: seq<Slot>
    var lanes: seq<Lane>
    var clock: nat
    var counters: Stats
    var poisoned: bool
    var hw: Machine
    ghost var loads: seq<nat>   // every page loaded so far
    ghost var served: seq<nat>  // those of them found in the host cache
    ghost var asked: nat        // distinct pages of all accepted requests

    ghost function Mapping(): Pool
      reads this
    {
      Pool(slots, clock)
    }

    /** What holds even after a failure: nothing unfinished can go wrong, the slots say what is
      * mapped, and every buffer a read may still write to is known to be pending. */
    ghost predicate Sound()
      reads this
    {
      0 < |lanes| == buffers && Steady(g, slots, lanes, hw)
    }

    ghost predicate Loading(batch: seq<Item>, loaded: set<nat>, except: set<nat>)
      reads this
    {
      && Staging.Loading(g, Mapping(), lanes, hw, batch, loaded, except, {})
      && 0 < |lanes| == buffers && (caching ==> CacheOk(lanes, batch))
    }

    /** The buffers cache the pages loaded last, and that is what was served from them. */
    ghost predicate CacheTells(batch: seq<Item>)
      reads this
    {
      Tells(Buffers(caching, lanes, batch, clock), loads, served)
    }

    // ----- Construction -----

    constructor Create(g: Geometry, caching: bool, slots: seq<Slot>, lanes: seq<Lane>, counters: Stats, hw: Machine)
      requires g.Valid() && Clean(hw) && hw.chunk == g.chunk && |hw.vram| == |slots| && 0 < |lanes| == |hw.reading|
      requires forall i :: 0 <= i < |slots| ==> slots[i] == Slot(NO_PAGE, 0, false)
      requires forall l :: 0 <= l < |lanes| ==> lanes[l] == Lane(NO_PAGE, 0, 0, false)
      requires hw.pages == map[] && AllIdle(hw) && Quiet(hw.queue)
      requires counters == Stats(0, 0, 0, 0, 0, 0, counters.residentLimit, counters.stagingBytes, counters.chunkBytes, counters.hostCacheBytes)
      ensures Valid() && !poisoned
      ensures this.g == g && this.caching == caching && this.slots == slots && this.lanes == lanes
      ensures this.counters == counters == this.sizes && this.hw == hw && asked == 0 && clock == 0
    {
      this.g, this.caching, this.buffers, this.sizes := g, caching, |lanes|, counters;
      this.slots, this.lanes, this.counters, this.hw := slots, lanes, counters, hw;
      clock, poisoned, loads, served, asked := 0, false, [], [], 0;
      new;
      MappedNone(slots);
    }

    /** Open a file with a budget of device memory and one of pinned host memory. `ready` says whether the
      * context, the capabilities asked for and the file are there, `queried` whether the granularity is,
      * and `granted` whether address range, stream, chunks, buffers and events could be had. */
    static method Open(file: seq<Byte>, budget: nat, chunk: nat, granularity: nat, hostBudget: nat,
                       ready: bool, queried: bool, granted: bool) returns (r: Opened)
      requires 0 < granularity && |file| <= MAX_LENGTH
      // The checks, in order.
      ensures !ready ==> r == Refused(NoDriver)
      ensures ready && |file| == 0 ==> r == Refused(EmptyFile)
      ensures ready && |file| > 0 && !queried ==> r == Refused(NoDriver)
      ensures ready && |file| > 0 && queried && !ChunkFits(chunk, granularity, budget) ==> r == Refused(BadChunk)
      ensures ready && |file| > 0 && queried && ChunkFits(chunk, granularity, budget) ==> (r.Opened? <==> granted)
      ensures r.Refused? && granted && ready && queried ==> |file| == 0 || !ChunkFits(chunk, granularity, budget)
      ensures r.Opened? ==> |file| > 0 && ChunkFits(chunk, granularity, budget)
      ensures r.Opened? ==> fresh(r.tensor) && r.tensor.Valid() && r.tensor.Opens(Geometry(file, chunk), budget, hostBudget)
    {
      if !ready {
        return Refused(NoDriver);
      }
      if |file| == 0 {
        return Refused(EmptyFile);
      }
      if !queried {
        return Refused(NoDriver);
      }
      if chunk == 0 || chunk % granularity != 0 || chunk > MAXDWORD || budget < chunk {
        return Refused(BadChunk);
      }
      if |file| > SIZE_MAX - (chunk - 1) {
        assert false;
      }
      if !granted {
        return Refused(NoDriver);
      }
      var g := Geometry(file, chunk);
      var count, caching := g.Affordable(budget), hostBudget >= chunk;
      var lanes := if caching then g.Affordable(hostBudget) else 2;
      var hw := FreshMachine(chunk, count, lanes);
      var stats := Stats(0, 0, 0, 0, 0, 0, count * chunk, if caching then 0 else 2 * chunk, chunk, if caching then lanes * chunk else 0);
      var t := new FileTensor.Create(g, caching, seq(count, _ => Slot(NO_PAGE, 0, false)), seq(lanes, _ => Lane(NO_PAGE, 0, 0, false)), stats, hw);
      r := Opened(t);
    }

    /** A tensor just opened: nothing resident, and neither memory budget exceeded. */
    ghost predicate Opens(g: Geometry, budget: nat, hostBudget: nat)
      requires g.Valid()
      reads this
    {
      && !poisoned && this.g == g
      && 0 < |slots| == g.Affordable(budget) && (forall i :: 0 <= i < |slots| ==> !slots[i].mapped)
      && (caching <==> hostBudget >= g.chunk)
      && |lanes| == (if caching then g.Affordable(hostBudget) else 2)
      && counters.residentLimit == |slots| * g.chunk <= budget
      && counters.hostCacheBytes == (if caching then |lanes| * g.chunk else 0) <= hostBudget
      && counters.stagingBytes == (if caching then 0 else 2 * g.chunk) && counters.chunkBytes == g.chunk
    }

    // ----- Scans -----

    /** The slot that maps the page. */
    method Find(page: nat) returns (found: bool, i: nat)
      ensures found <==> Resident(slots, page)
      ensures found ==> Holds(slots, i, page)
    {
      i := 0;
      while i < |slots|
        invariant i <= |slots|
        invariant forall j: nat :: j < i ==> !Holds(slots, j, page)
      {
        if slots[i].mapped && slots[i].page == page {
          assert Holds(slots, i, page);
          return true, i;
        }
        i := i + 1;
      }
      found := false;
    }

    /** The scan for a slot to take. */
    method ChooseSlot(required: set<nat>) returns (found: bool, v: nat)
      ensures found <==> exists i: nat :: Candidate(slots, required, i)
      ensures found ==> IsVictim(slots, required, v)
    {
      found, v := false, 0;
      for i := 0 to |slots|
        invariant forall j :: 0 <= j < i ==> slots[j].mapped
        invariant !found ==> forall j :: 0 <= j < i ==> !Candidate(slots, required, j)
        invariant found ==> v < i && Candidate(slots, required, v)
        invariant found ==> forall j :: 0 <= j < i && Candidate(slots, required, j) ==> slots[v].used <= slots[j].used
      {
        if !slots[i].mapped || slots[i].page !in required {
          assert Candidate(slots, required, i);
          if !found || !slots[i].mapped || slots[i].used < slots[v].used {
            found, v := true, i;
          }
          if !slots[i].mapped {
            return;
          }
        }
      }
    }

    /** The lane whose buffer holds the page. */
    method FindLane(page: nat) returns (found: bool, l: nat)
      ensures found <==> Cached(lanes, page)
      ensures found ==> l < |lanes| && lanes[l].page == page
    {
      l := 0;
      while l < |lanes|
        invariant l <= |lanes|
        invariant forall k :: 0 <= k < l ==> lanes[k].page != page
      {
        if lanes[l].page == page {
          return true, l;
        }
        l := l + 1;
      }
      found := false;
    }

    /** The least recently used lane outside the batch, the first of equals. */
    method ChooseLane(batch: seq<Item>) returns (found: bool, l: nat)
      ensures found <==> exists k: nat :: k < |lanes| && !Busy(batch, k)
      ensures found ==> l < |lanes| && !Busy(batch, l)
      ensures found ==> forall k: nat :: k < |lanes| && !Busy(batch, k) ==>
                if k < l then lanes[l].used < lanes[k].used else lanes[l].used <= lanes[k].used
    {
      found, l := false, 0;
      for i := 0 to |lanes|
        invariant !found ==> forall k: nat :: k < i ==> Busy(batch, k)
        invariant found ==> l < i && !Busy(batch, l)
        invariant found ==> forall k: nat :: k < i && !Busy(batch, k) ==>
                    if k < l then lanes[l].used < lanes[k].used else lanes[l].used <= lanes[k].used
      {
        if !Busy(batch, i) && (!found || lanes[i].used < lanes[l].used) {
          found, l := true, i;
        }
      }
    }

    // ----- Loading one page -----

    /** The slot a missing page will take, and the slots once it has; there always is one. */
    method PickSlot(page: nat, required: set<nat>) returns (v: nat, ghost taken: seq<Slot>)
      requires Sound() && PoolOk(Mapping())
      requires page in required && |required| <= |slots| && !Resident(slots, page)
      ensures v < |slots| && (slots[v].mapped ==> slots[v].page !in required) && page !in hw.pages
      ensures IsVictim(slots, required, v)
      ensures taken == Cleared(slots, v)[v := Slot(page, clock + 1, true)]
      ensures Load(Mapping(), page, required) == Pool(taken, clock + 2)
      ensures Mapped(taken) + (if slots[v].mapped then 1 else 0) == Mapped(slots) + 1
    {
      v := FindVictim(page, required);
      taken := Cleared(slots, v)[v := Slot(page, clock + 1, true)];
      TakenSlots(Mapping(), required, page, v, taken);
      NotMappedYet(page);
    }

    method FindVictim(page: nat, required: set<nat>) returns (v: nat)
      requires PoolOk(Mapping()) && page in required && |required| <= |slots| && !Resident(slots, page)
      ensures IsVictim(slots, required, v)
    {
      VictimExists(Mapping(), required, page);
      var found;
      found, v := ChooseSlot(required);
      assert found;  // "No evictable residency slot" cannot be raised
    }

    lemma NotMappedYet(page: nat)
      requires Sound() && !Resident(slots, page)
      ensures page !in hw.pages
    {
      assert page in hw.pages ==> Holds(slots, hw.pages[page].handle, page);
    }

    /** Take the slot for the page: evict what was there, map the page, open it for writing. */
    method TakeSlot(page: nat, v: nat, ghost batch: seq<Item>, ghost loaded: set<nat>, ghost taken: seq<Slot>) returns (ok: bool)
      requires Loading(batch, loaded, BatchPages(batch))
      requires v < |slots| && (slots[v].mapped ==> slots[v].page !in loaded)
      requires g.Has(page) && page !in hw.pages && page !in loaded
      requires taken == Cleared(slots, v)[v := Slot(page, clock + 1, true)]
      modifies this`slots, this`clock, this`counters, this`hw
      ensures hw.faults >= old(hw.faults) && (ok <==> hw.faults == old(hw.faults))
      ensures !ok ==> Sound()
      ensures ok ==> Loading(batch, loaded + {page}, BatchPages(batch) + {page})
      ensures ok ==> page in hw.pages
      ensures ok ==> slots == taken && clock == old(clock) + 1
      ensures ok ==> counters.evictions == old(counters.evictions) + if old(slots)[v].mapped then 1 else 0
      ensures counters == old(counters).(evictions := counters.evictions)
    {
      ghost var cleared := Cleared(slots, v);
      ok := MakeRoom(v, batch, loaded, cleared);
      if ok {
        ok := MapInto(page, v, batch, loaded, taken);
      }
    }

    /** Unmap the slot if it is in use. */
    method MakeRoom(v: nat, ghost batch: seq<Item>, ghost loaded: set<nat>, ghost cleared: seq<Slot>) returns (ok: bool)
      requires Loading(batch, loaded, BatchPages(batch))
      requires v < |slots| && (slots[v].mapped ==> slots[v].page !in loaded)
      requires cleared == Cleared(slots, v)
      modifies this`slots, this`counters, this`hw
      ensures hw.faults >= old(hw.faults) && (ok <==> hw.faults == old(hw.faults))
      ensures !ok ==> Sound()
      ensures ok ==> Loading(batch, loaded, BatchPages(batch))
      ensures ok ==> |slots| == |old(slots)| && !slots[v].mapped
      ensures ok ==> slots == cleared
      ensures ok ==> hw.pages.Keys <= old(hw.pages.Keys)
      ensures ok ==> counters.evictions == old(counters.evictions) + if old(slots)[v].mapped then 1 else 0
      ensures counters == old(counters).(evictions := counters.evictions)
    {
      ok := true;
      if slots[v].mapped {
        ok := Try(batch, loaded, BatchPages(batch));
        if !ok {
          LoadingIsSound(batch, loaded, BatchPages(batch));
          return;
        }
        var unmapped := slots[v := slots[v].(mapped := false)];
        EvictStep(g, Mapping(), Pool(unmapped, clock), lanes, hw, batch, loaded, BatchPages(batch), {}, v);
        hw := Unmap(hw, slots[v].page);
        slots := unmapped;
        counters := counters.(evictions := counters.evictions + 1);
      }
    }

    /** A driver call in the middle of a load: it may fail, and time passes. */
    method Try(ghost batch: seq<Item>, ghost loaded: set<nat>, ghost except: set<nat>) returns (ok: bool)
      requires Loading(batch, loaded, except)
      modifies this`hw
      ensures hw.faults >= old(hw.faults) && (ok <==> hw.faults == old(hw.faults))
      ensures Loading(batch, loaded, except) && hw.pages == old(hw.pages)
    {
      ghost var before := hw;
      ok, hw := Attempt(hw);
      LoadingLater(g, Mapping(), lanes, before, hw, batch, loaded, except, {});
    }

    lemma LoadingIsSound(batch: seq<Item>, loaded: set<nat>, except: set<nat>)
      requires Loading(batch, loaded, except)
      ensures Sound()
    {
      forall l | 0 <= l < |lanes| && hw.reading[l].InFlight? ensures lanes[l].pending {
        assert LaneOk(g, lanes[l], hw.reading[l], hw.host[l]);
      }
    }

    method MapInto(page: nat, v: nat, ghost batch: seq<Item>, ghost loaded: set<nat>, ghost taken: seq<Slot>) returns (ok: bool)
      requires Loading(batch, loaded, BatchPages(batch))
      requires v < |slots| && !slots[v].mapped && g.Has(page) && page !in hw.pages && page !in loaded
      requires taken == slots[v := Slot(page, clock + 1, true)]
      modifies this`slots, this`clock, this`hw
      ensures hw.faults >= old(hw.faults) && (ok <==> hw.faults == old(hw.faults))
      ensures !ok ==> Sound()
      ensures ok ==> Loading(batch, loaded + {page}, BatchPages(batch) + {page})
      ensures ok ==> page in hw.pages
      ensures ok ==> slots == taken && clock == old(clock) + 1
    {
      ok := Try(batch, loaded, BatchPages(batch));
      if !ok {
        LoadingIsSound(batch, loaded, BatchPages(batch));
        return;
      }
      TieSlot(page, v, batch, loaded, taken);
      ok := OpenPage(page, batch, loaded, BatchPages(batch) + {page});
    }

    /** Map the slot at the page's offset, not yet accessible. */
    method TieSlot(page: nat, v: nat, ghost batch: seq<Item>, ghost loaded: set<nat>, ghost taken: seq<Slot>)
      requires Loading(batch, loaded, BatchPages(batch))
      requires v < |slots| && !slots[v].mapped && g.Has(page) && page !in hw.pages && page !in loaded
      requires taken == slots[v := Slot(page, clock + 1, true)]
      modifies this`slots, this`clock, this`hw
      ensures hw.faults == old(hw.faults)
      ensures Loading(batch, loaded, BatchPages(batch) + {page})
      ensures page in hw.pages && slots == taken && clock == old(clock) + 1
    {
      var mapped := slots[v := Slot(page, clock + 1, true)];
      MapStep(g, Mapping(), Pool(mapped, clock + 1), lanes, hw, batch, loaded, BatchPages(batch), {}, v, page);
      hw := Map(hw, page, v);
      slots, clock := mapped, clock + 1;
    }

    method OpenPage(page: nat, ghost batch: seq<Item>, ghost loaded: set<nat>, ghost except: set<nat>) returns (ok: bool)
      requires Loading(batch, loaded, except)
      requires page in hw.pages && page in except
      modifies this`hw
      ensures hw.faults >= old(hw.faults) && (ok <==> hw.faults == old(hw.faults))
      ensures !ok ==> Sound()
      ensures ok ==> Loading(batch, loaded + {page}, except)
      ensures ok ==> page in hw.pages
    {
      ok := Try(batch, loaded, except);
      if !ok {
        LoadingIsSound(batch, loaded, except);
        return;
      }
      AccessStep(g, Mapping(), lanes, hw, batch, loaded, except, {}, page);
      hw := SetAccess(hw, page, ReadWrite);
    }

    // ----- Filling one lane -----

    /** Wait until the lane's last upload is over. */
    method AwaitLane(l: nat, ghost batch: seq<Item>, ghost loaded: set<nat>, ghost except: set<nat>) returns (ok: bool)
      requires Loading(batch, loaded, except)
      modifies this`hw
      ensures hw.faults >= old(hw.faults) && (ok <==> hw.faults == old(hw.faults))
      ensures Loading(batch, loaded, except) && hw.pages == old(hw.pages)
      ensures ok ==> Signal(l) !in hw.queue
    {
      ghost var before := hw;
      ok, hw := EventSynchronize(hw, l);
      LoadingLater(g, Mapping(), lanes, before, hw, batch, loaded, except, {});
    }

    /** Choose the lane for a missing page: the one that caches it, else the least recently used free
      * one, the first of equals. */
    method PickLane(page: nat, batch: seq<Item>, ghost loaded: set<nat>, ghost except: set<nat>) returns (hit: bool, l: nat)
      requires Loading(batch, loaded, except)
      requires |batch| < Min(2, |lanes|)
      ensures l < |lanes| && Offers(Buffers(caching, lanes, batch, clock), page, l, hit)
      ensures hit <==> caching && Cached(lanes, page)
      ensures hit ==> lanes[l].page == page
      ensures !hit ==> LeastFree(lanes, batch, l)
    {
      hit, l := false, 0;
      if caching {
        hit, l := FindLane(page);
      }
      if !hit {
        var found;
        found, l := ChooseLane(batch);
        assert found by {  // "No file read lane available" cannot be raised
          if |batch| == 0 {
            assert !Busy(batch, 0);
          } else {
            assert batch == [batch[0]];
            assert !Busy(batch, if batch[0].lane == 0 then 1 else 0);
          }
        }
      }
    }

    method ServeFromHost(page: nat, l: nat, ghost batch: seq<Item>, ghost loaded: set<nat>, ghost except: set<nat>)
      requires Loading(batch, loaded, except)
      requires l < |lanes| && lanes[l].page == page && page != NO_PAGE && Signal(l) !in hw.queue
      requires page in hw.pages && page in except * loaded && page !in BatchPages(batch)
      modifies this`lanes, this`clock
      ensures Loading(batch + [Item(page, l, false)], loaded, except)
      ensures clock == old(clock) + 1 && lanes == old(lanes)[l := old(lanes)[l].(used := clock)]
    {
      var touched := lanes[l := lanes[l].(used := clock + 1)];
      HostHitStep(g, Mapping(), lanes, touched, hw, batch, loaded, except, l, page);
      if caching {
        CacheHit(lanes, touched, batch, l, clock + 1, page);
      }
      lanes, clock := touched, clock + 1;
    }

    /** Start reading the page into a free lane. The lane forgets its page even if the read cannot start. */
    method BeginRead(page: nat, l: nat, ghost batch: seq<Item>, ghost loaded: set<nat>, ghost except: set<nat>) returns (ok: bool)
      requires Loading(batch, loaded, except)
      requires l < |lanes| && !Busy(batch, l) && Signal(l) !in hw.queue
      requires caching ==> !Cached(lanes, page)
      requires g.Has(page) && page in hw.pages && page in except * loaded && page !in BatchPages(batch)
      modifies this`lanes, this`clock, this`hw
      ensures hw.faults >= old(hw.faults) && (ok <==> hw.faults == old(hw.faults))
      ensures !ok ==> Sound()
      ensures ok ==> Loading(batch + [Item(page, l, true)], loaded, except)
      ensures clock == old(clock) + 1 && |lanes| == |old(lanes)|
      ensures lanes == old(lanes)[l := Lane(NO_PAGE, clock, g.Bytes(page), ok || old(lanes)[l].pending)]
    {
      ok := TryKeeping(l, batch, loaded, except);
      if !ok {
        LoadingIsSound(batch, loaded, except);
        lanes, clock := lanes[l := Lane(NO_PAGE, clock + 1, g.Bytes(page), lanes[l].pending)], clock + 1;
        return;
      }
      StartFilling(page, l, batch, loaded, except);
    }

    method StartFilling(page: nat, l: nat, ghost batch: seq<Item>, ghost loaded: set<nat>, ghost except: set<nat>)
      requires Loading(batch, loaded, except)
      requires l < |lanes| && !Busy(batch, l) && Signal(l) !in hw.queue
      requires caching ==> !Cached(lanes, page)
      requires g.Has(page) && page in hw.pages && page in except * loaded && page !in BatchPages(batch)
      modifies this`lanes, this`clock, this`hw
      ensures hw.faults == old(hw.faults)
      ensures Loading(batch + [Item(page, l, true)], loaded, except)
      ensures clock == old(clock) + 1 && |lanes| == |old(lanes)|
      ensures lanes == old(lanes)[l := Lane(NO_PAGE, clock, g.Bytes(page), true)]
    {
      var filling := lanes[l := Lane(NO_PAGE, clock + 1, g.Bytes(page), true)];
      StartReadStep(g, Mapping(), lanes, filling, hw, batch, loaded, except, l, page);
      CacheForgets(page, l, filling, batch, loaded, except);
      hw := StartRead(hw, l, g.Offset(page), g.Bytes(page));
      lanes, clock := filling, clock + 1;
    }

    lemma CacheForgets(page: nat, l: nat, filling: seq<Lane>, batch: seq<Item>, loaded: set<nat>, except: set<nat>)
      requires Loading(batch, loaded, except) && g.Has(page) && l < |lanes|
      requires caching ==> !Cached(lanes, page)
      requires filling == lanes[l := Lane(NO_PAGE, clock + 1, g.Bytes(page), true)]
      ensures caching ==> CacheOk(filling, batch + [Item(page, l, true)])
    {
      if caching {
        g.RealPageIsNotMarker(page);
        forall b | 0 <= b < |batch| ensures batch[b].page != NO_PAGE {
          assert ItemOk(g, batch[b], lanes, hw);
          g.RealPageIsNotMarker(batch[b].page);
        }
        CacheMiss(lanes, filling, batch, l, filling[l], page);
      }
    }

    /** A driver call while the lane's event has passed. */
    method TryKeeping(l: nat, ghost batch: seq<Item>, ghost loaded: set<nat>, ghost except: set<nat>) returns (ok: bool)
      requires Loading(batch, loaded, except) && Signal(l) !in hw.queue
      modifies this`hw
      ensures hw.faults >= old(hw.faults) && (ok <==> hw.faults == old(hw.faults))
      ensures Loading(batch, loaded, except) && Signal(l) !in hw.queue && hw.pages == old(hw.pages)
    {
      ghost var before := hw;
      ok, hw := Attempt(hw);
      LoadingLater(g, Mapping(), lanes, before, hw, batch, loaded, except, {});
    }

    /** Bring a missing page towards the device: from the host cache, or by starting a read. */
    method TakeLane(page: nat, batch: seq<Item>, ghost loaded: set<nat>, ghost except: set<nat>) returns (ok: bool, longer: seq<Item>)
      requires Loading(batch, loaded, except) && Tally(g, counters, loads, served, batch) && CacheTells(batch)
      requires |batch| < Min(2, |lanes|) && except == BatchPages(batch) + {page}
      requires g.Has(page) && page in hw.pages && page in loaded && page !in BatchPages(batch)
      modifies this`lanes, this`clock, this`counters, this`hw, this`loads, this`served, this`asked
      ensures hw.faults >= old(hw.faults) && (ok <==> hw.faults == old(hw.faults))
      ensures !ok ==> Sound()
      ensures ok ==> |longer| == |batch| + 1 && except == BatchPages(longer)
      ensures ok ==> Loading(longer, loaded, except) && Tally(g, counters, loads, served, longer)
      ensures ok ==> loads == old(loads) + [page] && asked == old(asked) + 1 && clock == old(clock) + 1
      // Served from a buffer exactly if fewer other pages were loaded since than there are buffers.
      ensures ok ==> CacheTells(longer)
      ensures ok ==> served == old(served) + if caching && Recent(old(loads), page, |lanes|) then [page] else []
      ensures counters.evictions == old(counters.evictions) && counters.hits == old(counters.hits) && SameSizes(counters, old(counters))
    {
      var hit, l := PickLane(page, batch, loaded, except);
      longer := batch + [Item(page, l, !hit)];
      BatchPagesAppend(batch, Item(page, l, !hit));
      LaneTells(page, l, hit, batch, longer);
      ok := UseLane(page, l, hit, batch, loaded, except, longer);
    }

    /** The lane picked is the one that the loads so far imply. */
    lemma LaneTells(page: nat, l: nat, hit: bool, batch: seq<Item>, longer: seq<Item>)
      requires CacheTells(batch) && |batch| < Min(2, |lanes|) && longer == batch + [Item(page, l, !hit)]
      requires g.Valid() && g.Has(page) && page !in BatchPages(batch) && l < |lanes|
      requires hit <==> caching && Cached(lanes, page)
      requires if hit then lanes[l].page == page else LeastFree(lanes, batch, l)
      ensures WillTell(page, l, hit, longer)
      ensures hit <==> caching && Recent(loads, page, |lanes|)
    {
      g.RealPageIsNotMarker(page);
      var taken := TakenAt(lanes, l, hit, clock + 1, g.Bytes(page));
      TakenTells(caching, lanes, taken, batch, longer, clock, loads, served, page, l, hit, g.Bytes(page));
    }

    /** The same once the lane is taken. */
    ghost predicate WillTell(page: nat, l: nat, hit: bool, longer: seq<Item>)
      requires g.Valid() && g.Has(page) && l < |lanes|
      reads this
    {
      Tells(Buffers(caching, TakenAt(lanes, l, hit, clock + 1, g.Bytes(page)), longer, clock + 1),
            loads + [page], served + if hit then [page] else [])
    }

    method UseLane(page: nat, l: nat, hit: bool, ghost batch: seq<Item>, ghost loaded: set<nat>, ghost except: set<nat>,
                   ghost longer: seq<Item>) returns (ok: bool)
      requires Loading(batch, loaded, except) && longer == batch + [Item(page, l, !hit)] && Tally(g, counters, loads, served, batch)
      requires g.Has(page) && page in hw.pages && page in except * loaded && page !in BatchPages(batch)
      requires Offers(Buffers(caching, lanes, batch, clock), page, l, hit)
      requires WillTell(page, l, hit, longer)
      modifies this`lanes, this`clock, this`counters, this`hw, this`loads, this`served, this`asked
      ensures hw.faults >= old(hw.faults) && (ok <==> hw.faults == old(hw.faults))
      ensures !ok ==> Sound()
      ensures ok ==> Loading(longer, loaded, except)
      ensures ok ==> Tally(g, counters, loads, served, longer) && CacheTells(longer)
      ensures ok ==> loads == old(loads) + [page] && asked == old(asked) + 1 && clock == old(clock) + 1
      ensures ok ==> served == old(served) + if hit then [page] else []
      ensures counters.evictions == old(counters.evictions) && counters.hits == old(counters.hits) && SameSizes(counters, old(counters))
    {
      ok := FillFor(page, l, hit, batch, loaded, except, longer);
      if ok {
        CountMiss(page, l, hit, batch, longer);
      }
    }

    method CountMiss(page: nat, l: nat, hit: bool, ghost batch: seq<Item>, ghost longer: seq<Item>)
      requires Tally(g, counters, loads, served, batch) && longer == batch + [Item(page, l, !hit)]
      requires Tells(Buffers(caching, lanes, longer, clock), loads + [page], served + if hit then [page] else [])
      modifies this`counters, this`loads, this`served, this`asked
      ensures Tally(g, counters, loads, served, longer) && CacheTells(longer)
      ensures asked == old(asked) + 1
      ensures loads == old(loads) + [page] && served == old(served) + if hit then [page] else []
      ensures counters.evictions == old(counters.evictions) && counters.hits == old(counters.hits) && SameSizes(counters, old(counters))
    {
      TallyStart(g, counters, loads, served, batch, Item(page, l, !hit));
      if hit {
        counters := counters.(hostHits := counters.hostHits + 1);
      }
      counters := counters.(misses := counters.misses + 1);
      loads, served := loads + [page], served + if hit then [page] else [];
      asked := asked + 1;
    }

    method FillFor(page: nat, l: nat, hit: bool, ghost batch: seq<Item>, ghost loaded: set<nat>, ghost except: set<nat>,
                   ghost longer: seq<Item>) returns (ok: bool)
      requires Loading(batch, loaded, except) && longer == batch + [Item(page, l, !hit)]
      requires g.Has(page) && page in hw.pages && page in except * loaded && page !in BatchPages(batch)
      requires Offers(Buffers(caching, lanes, batch, clock), page, l, hit)
      requires WillTell(page, l, hit, longer)
      modifies this`lanes, this`clock, this`hw
      ensures hw.faults >= old(hw.faults) && (ok <==> hw.faults == old(hw.faults))
      ensures !ok ==> Sound()
      ensures ok ==> Loading(longer, loaded, except)
      ensures ok ==> clock == old(clock) + 1
      ensures ok ==> Tells(Buffers(caching, lanes, longer, clock), loads + [page], served + if hit then [page] else [])
    {
      ok := FillLane(page, l, hit, batch, loaded, except, longer);
      if ok {
        NowTells(caching, old(lanes), lanes, old(clock), clock, longer, loads, served, page, l, hit, g.Bytes(page));
      }
    }

    method FillLane(page: nat, l: nat, hit: bool, ghost batch: seq<Item>, ghost loaded: set<nat>, ghost except: set<nat>,
                    ghost longer: seq<Item>) returns (ok: bool)
      requires Loading(batch, loaded, except) && longer == batch + [Item(page, l, !hit)]
      requires g.Has(page) && page in hw.pages && page in except * loaded && page !in BatchPages(batch)
      requires Offers(Buffers(caching, lanes, batch, clock), page, l, hit)
      modifies this`lanes, this`clock, this`hw
      ensures hw.faults >= old(hw.faults) && (ok <==> hw.faults == old(hw.faults))
      ensures !ok ==> Sound()
      ensures ok ==> Loading(longer, loaded, except)
      ensures ok ==> clock == old(clock) + 1 && lanes == TakenAt(old(lanes), l, hit, clock, g.Bytes(page))
    {
      ok := AwaitLane(l, batch, loaded, except);
      if !ok {
        LoadingIsSound(batch, loaded, except);
      } else if hit {
        g.RealPageIsNotMarker(page);
        ServeFromHost(page, l, batch, loaded, except);
      } else {
        ok := BeginRead(page, l, batch, loaded, except);
      }
    }

    // ----- Finishing a batch -----

    /** Wait for the read at the head of the batch; a short read is an error. */
    method CompleteRead(batch: seq<Item>, ghost loaded: set<nat>, ghost except: set<nat>) returns (ok: bool)
      requires Loading(batch, loaded, except) && batch != [] && batch[0].read
      modifies this`lanes, this`counters, this`hw
      ensures hw.faults >= old(hw.faults) && (ok <==> hw.faults == old(hw.faults))
      ensures !ok ==> Sound()
      ensures ok ==> Loading([batch[0].(read := false)] + batch[1..], loaded, except)
      ensures ok ==> g.Has(batch[0].page) && batch[0].lane < |old(lanes)| && lanes == Filled(old(lanes), batch[0])
      ensures ok ==> counters.fileBytes == old(counters).fileBytes + g.Bytes(batch[0].page)
      ensures counters == old(counters).(fileBytes := counters.fileBytes)
    {
      var l := batch[0].lane;
      assert ItemOk(g, batch[0], lanes, hw);
      ghost var before := hw;
      var got;
      ok, got, hw := AwaitRead(g.file, hw, l);
      if !ok {
        StillSound(batch, loaded, except, before);
        return;
      }
      ok := ReadEnded(batch, loaded, except, got, before);
    }

    lemma StillSound(batch: seq<Item>, loaded: set<nat>, except: set<nat>, before: Machine)
      requires Staging.Loading(g, Mapping(), lanes, before, batch, loaded, except, {}) && 0 < |lanes| == buffers
      requires Later(before, hw)
      ensures Sound()
    {
      LoadingLater(g, Mapping(), lanes, before, hw, batch, loaded, except, {});
      forall l | 0 <= l < |lanes| && hw.reading[l].InFlight? ensures lanes[l].pending {
        assert LaneOk(g, lanes[l], hw.reading[l], hw.host[l]);
      }
    }

    method ReadEnded(batch: seq<Item>, ghost loaded: set<nat>, ghost except: set<nat>, got: nat, ghost before: Machine) returns (ok: bool)
      requires batch != [] && batch[0].read
      requires Staging.Loading(g, Mapping(), lanes, before, batch, loaded, except, {}) && 0 < |lanes| == buffers
      requires caching ==> CacheOk(lanes, batch)
      requires ItemOk(g, batch[0], lanes, before) && got <= g.Bytes(batch[0].page)
      requires exists ended: Machine, bytes: seq<Byte> ::
        && Later(before, ended) && |bytes| == before.chunk && hw == EndRead(ended, batch[0].lane, bytes)
        && bytes[..got] == g.file[g.Offset(batch[0].page)..g.Offset(batch[0].page) + got]
      modifies this`lanes, this`counters
      ensures ok <==> got == g.Bytes(batch[0].page)
      ensures !ok ==> Sound()
      ensures ok ==> Loading([batch[0].(read := false)] + batch[1..], loaded, except)
      ensures ok ==> lanes == Filled(old(lanes), batch[0])
      ensures ok ==> counters.fileBytes == old(counters).fileBytes + g.Bytes(batch[0].page)
      ensures counters == old(counters).(fileBytes := counters.fileBytes)
    {
      var l := batch[0].lane;
      ghost var ended: Machine, bytes: seq<Byte> :|
        && Later(before, ended) && |bytes| == before.chunk && hw == EndRead(ended, l, bytes)
        && bytes[..got] == g.file[g.Offset(batch[0].page)..g.Offset(batch[0].page) + got];
      LoadingLater(g, Mapping(), lanes, before, ended, batch, loaded, except, {});
      ok := got == lanes[l].wanted;
      if ok {
        counters := counters.(fileBytes := counters.fileBytes + got);
        KeepRead(batch, loaded, except, ended, bytes);
      } else {
        DropRead(batch, loaded, except, ended, bytes);
      }
    }

    method KeepRead(batch: seq<Item>, ghost loaded: set<nat>, ghost except: set<nat>, ghost ended: Machine, ghost bytes: seq<Byte>)
      requires batch != [] && batch[0].read
      requires Staging.Loading(g, Mapping(), lanes, ended, batch, loaded, except, {}) && 0 < |lanes| == buffers
      requires caching ==> CacheOk(lanes, batch)
      requires ItemOk(g, batch[0], lanes, ended) && |bytes| == ended.chunk && hw == EndRead(ended, batch[0].lane, bytes)
      requires bytes[..g.Bytes(batch[0].page)] == g.Content(batch[0].page)
      modifies this`lanes
      ensures Loading([batch[0].(read := false)] + batch[1..], loaded, except) && lanes == Filled(old(lanes), batch[0])
    {
      var l := batch[0].lane;
      var filled := lanes[l := lanes[l].(page := batch[0].page, pending := false)];
      EndReadStep(g, Mapping(), lanes, filled, ended, batch, loaded, except, bytes);
      if caching {
        CacheFilled(lanes, filled, batch);
      }
      lanes := filled;
    }

    /** A read that ended short leaves nothing in its buffer. */
    method DropRead(batch: seq<Item>, ghost loaded: set<nat>, ghost except: set<nat>, ghost ended: Machine, ghost bytes: seq<Byte>)
      requires batch != [] && batch[0].read
      requires Staging.Loading(g, Mapping(), lanes, ended, batch, loaded, except, {}) && 0 < |lanes| == buffers
      requires ItemOk(g, batch[0], lanes, ended) && |bytes| == ended.chunk && hw == EndRead(ended, batch[0].lane, bytes)
      modifies this`lanes
      ensures Sound()
    {
      var l := batch[0].lane;
      ReadEndedSound(batch, loaded, except, ended, l, bytes);
      lanes := lanes[l := lanes[l].(pending := false)];
    }

    lemma ReadEndedSound(batch: seq<Item>, loaded: set<nat>, except: set<nat>, ended: Machine, l: nat, bytes: seq<Byte>)
      requires Staging.Loading(g, Mapping(), lanes, ended, batch, loaded, except, {}) && 0 < |lanes| == buffers
      requires l < |lanes| && ended.reading[l].InFlight? && |bytes| == ended.chunk
      requires hw == EndRead(ended, l, bytes)
      ensures g.Valid() && Clean(hw) && hw.chunk == g.chunk && MapOk(slots, hw) && |lanes| == |hw.reading|
      ensures forall k :: 0 <= k < |lanes| && hw.reading[k].InFlight? ==> k != l && lanes[k].pending
    {
      forall k | 0 <= k < |lanes| && hw.reading[k].InFlight? ensures k != l && lanes[k].pending {
        assert LaneOk(g, lanes[k], ended.reading[k], ended.host[k]);
      }
    }

    method TryUpload(ghost batch: seq<Item>, ghost loaded: set<nat>, ghost except: set<nat>, ghost open: set<nat>) returns (ok: bool)
      requires Staging.Loading(g, Mapping(), lanes, hw, batch, loaded, except, open) && 0 < |lanes| == buffers
      modifies this`hw
      ensures hw.faults >= old(hw.faults) && (ok <==> hw.faults == old(hw.faults))
      ensures Staging.Loading(g, Mapping(), lanes, hw, batch, loaded, except, open)
      ensures hw.pages == old(hw.pages) && Final(hw) == Final(old(hw))
      ensures Sound()
    {
      ghost var before := hw;
      ok, hw := Attempt(hw);
      LoadingLater(g, Mapping(), lanes, before, hw, batch, loaded, except, open);
      forall l | 0 <= l < |lanes| && hw.reading[l].InFlight? ensures lanes[l].pending {
        assert LaneOk(g, lanes[l], hw.reading[l], hw.host[l]);
      }
    }

    /** Queue the upload of the head of the batch, the clearing of its padding, and the lane's event. */
    method Upload(batch: seq<Item>, ghost loaded: set<nat>, ghost except: set<nat>) returns (ok: bool)
      requires Loading(batch, loaded, except) && batch != [] && !batch[0].read
      modifies this`counters, this`hw
      ensures hw.faults >= old(hw.faults) && (ok <==> hw.faults == old(hw.faults))
      ensures !ok ==> Sound()
      ensures ok ==> Loading(batch[1..], loaded, except - {batch[0].page})
      ensures ok ==> g.Has(batch[0].page)
      ensures ok ==> counters.uploadedBytes == old(counters).uploadedBytes + g.Bytes(batch[0].page)
      ensures counters == old(counters).(uploadedBytes := counters.uploadedBytes)
    {
      var page, l := batch[0].page, batch[0].lane;
      ok := TryUpload(batch, loaded, except, {});
      if !ok { return; }
      ghost var rest := batch[1..];
      QueueCopy(page, l, batch, rest, loaded, except);
      ok := ClearAndSignal(page, l, rest, loaded, except);
      if ok {
        counters := counters.(uploadedBytes := counters.uploadedBytes + lanes[l].wanted);
      }
    }

    method QueueCopy(page: nat, l: nat, ghost batch: seq<Item>, ghost rest: seq<Item>, ghost loaded: set<nat>, ghost except: set<nat>)
      requires Loading(batch, loaded, except) && batch != [] && batch[0] == Item(page, l, false) && rest == batch[1..]
      modifies this`hw
      ensures hw.faults == old(hw.faults)
      ensures Staging.Loading(g, Mapping(), lanes, hw, rest, loaded, except, {l})
      ensures caching ==> CacheOk(lanes, rest)
      ensures g.Has(page) && page in hw.pages && page in except * loaded && page !in BatchPages(rest)
      ensures l < |lanes| && lanes[l].wanted == g.Bytes(page)
      ensures |Chunk(hw, page)| == g.chunk && Chunk(hw, page)[..g.Bytes(page)] == g.Content(page)
    {
      HeadReady(g, Mapping(), lanes, hw, batch, loaded, except);
      var copy := Copy(page, l, lanes[l].wanted);
      CopyStep(g, Mapping(), lanes, hw, batch, loaded, except, copy);
      CopyContent(g, Mapping(), lanes, hw, batch, loaded, except, copy);
      hw := Enqueue(hw, copy);
    }

    method ClearAndSignal(page: nat, l: nat, ghost rest: seq<Item>, ghost loaded: set<nat>, ghost except: set<nat>) returns (ok: bool)
      requires Staging.Loading(g, Mapping(), lanes, hw, rest, loaded, except, {l}) && 0 < |lanes| == buffers
      requires caching ==> CacheOk(lanes, rest)
      requires g.Has(page) && page in hw.pages && page in except * loaded && page !in BatchPages(rest)
      requires l < |lanes| && lanes[l].wanted == g.Bytes(page)
      requires |Chunk(hw, page)| == g.chunk && Chunk(hw, page)[..g.Bytes(page)] == g.Content(page)
      modifies this`hw
      ensures hw.faults >= old(hw.faults) && (ok <==> hw.faults == old(hw.faults))
      ensures !ok ==> Sound()
      ensures ok ==> Loading(rest, loaded, except - {page})
    {
      ok := ClearPadding(page, l, rest, loaded, except);
      if ok {
        ok := SignalUpload(page, l, rest, loaded, except);
      }
    }

    /** Record the lane's event behind its upload. */
    method SignalUpload(page: nat, l: nat, ghost rest: seq<Item>, ghost loaded: set<nat>, ghost except: set<nat>) returns (ok: bool)
      requires Staging.Loading(g, Mapping(), lanes, hw, rest, loaded, except, {l}) && 0 < |lanes| == buffers
      requires caching ==> CacheOk(lanes, rest)
      requires g.Has(page) && page in hw.pages && page in except * loaded && page !in BatchPages(rest) && l < |lanes|
      requires Chunk(hw, page) == g.Image(page)
      modifies this`hw
      ensures hw.faults >= old(hw.faults) && (ok <==> hw.faults == old(hw.faults))
      ensures !ok ==> Sound()
      ensures ok ==> Loading(rest, loaded, except - {page})
    {
      ok := TryUpload(rest, loaded, except, {l});
      if ok {
        SignalStep(g, Mapping(), lanes, hw, rest, loaded, except, l, page);
        hw := Enqueue(hw, Signal(l));
      }
    }

    /** The last chunk of the file is cleared behind its content. */
    method ClearPadding(page: nat, l: nat, ghost rest: seq<Item>, ghost loaded: set<nat>, ghost except: set<nat>) returns (ok: bool)
      requires Staging.Loading(g, Mapping(), lanes, hw, rest, loaded, except, {l}) && 0 < |lanes| == buffers
      requires g.Has(page) && page in hw.pages && page in except * loaded
      requires l < |lanes| && lanes[l].wanted == g.Bytes(page)
      requires |Chunk(hw, page)| == g.chunk && Chunk(hw, page)[..g.Bytes(page)] == g.Content(page)
      modifies this`hw
      ensures hw.faults >= old(hw.faults) && (ok <==> hw.faults == old(hw.faults))
      ensures !ok ==> Sound()
      ensures ok ==> Staging.Loading(g, Mapping(), lanes, hw, rest, loaded, except, {l})
      ensures ok ==> page in hw.pages && Chunk(hw, page) == g.Image(page)
    {
      ok := true;
      if lanes[l].wanted < g.chunk {
        ok := TryUpload(rest, loaded, except, {l});
        if !ok { return; }
        ClearStep(g, Mapping(), lanes, hw, rest, loaded, except, {l}, page);
        hw := Enqueue(hw, Clear(page, lanes[l].wanted));
      }
    }

    /** Make sure the head of the batch is in its lane. */
    method ReadHead(batch: seq<Item>, ghost ready: seq<Item>, ghost loaded: set<nat>, ghost except: set<nat>) returns (ok: bool)
      requires Loading(batch, loaded, except) && Tally(g, counters, loads, served, batch) && batch != []
      requires ready == [batch[0].(read := false)] + batch[1..]
      modifies this`lanes, this`counters, this`hw
      ensures hw.faults >= old(hw.faults) && (ok <==> hw.faults == old(hw.faults))
      ensures !ok ==> Sound()
      ensures ok ==> Loading(ready, loaded, except) && Tally(g, counters, loads, served, ready)
      ensures ok ==> batch[0].lane < |old(lanes)| && lanes == Filled(old(lanes), batch[0])
      ensures counters == old(counters).(fileBytes := counters.fileBytes)
    {
      ok := true;
      if batch[0].read {
        ok := CompleteRead(batch, loaded, except);
        if ok {
          TallyRead(g, old(counters), loads, served, batch);
        }
      } else {
        assert ready == batch && ItemOk(g, batch[0], lanes, hw);
      }
    }

    method UploadHead(ready: seq<Item>, ghost rest: seq<Item>, ghost loaded: set<nat>, ghost except: set<nat>, ghost except': set<nat>) returns (ok: bool)
      requires Loading(ready, loaded, except) && Tally(g, counters, loads, served, ready)
      requires ready != [] && !ready[0].read
      requires rest == ready[1..] && except' == except - {ready[0].page}
      modifies this`counters, this`hw
      ensures hw.faults >= old(hw.faults) && (ok <==> hw.faults == old(hw.faults))
      ensures !ok ==> Sound()
      ensures ok ==> Loading(rest, loaded, except') && Tally(g, counters, loads, served, rest)
      ensures counters == old(counters).(uploadedBytes := counters.uploadedBytes)
    {
      ok := Upload(ready, loaded, except);
      if ok {
        TallyUpload(g, old(counters), loads, served, ready);
      }
    }

    method FinishItem(batch: seq<Item>, ghost loaded: set<nat>) returns (ok: bool)
      requires Loading(batch, loaded, BatchPages(batch)) && Tally(g, counters, loads, served, batch) && CacheTells(batch) && batch != []
      modifies this`lanes, this`counters, this`hw
      ensures hw.faults >= old(hw.faults) && (ok <==> hw.faults == old(hw.faults))
      ensures !ok ==> Sound()
      ensures ok ==> Loading(batch[1..], loaded, BatchPages(batch[1..])) && Tally(g, counters, loads, served, batch[1..]) && CacheTells(batch[1..])
      ensures counters == old(counters).(fileBytes := counters.fileBytes, uploadedBytes := counters.uploadedBytes)
    {
      var ready := [batch[0].(read := false)] + batch[1..];
      ghost var rest, except, except' := batch[1..], BatchPages(batch), BatchPages(batch[1..]);
      HeadLeaves(batch, loaded, ready);
      ok := ReadHead(batch, ready, loaded, except);
      if ok {
        HeadTells(caching, old(lanes), lanes, batch, rest, clock, loads, served);
        ok := UploadHead(ready, rest, loaded, except, except');
      }
    }

    lemma HeadLeaves(batch: seq<Item>, loaded: set<nat>, ready: seq<Item>)
      requires Loading(batch, loaded, BatchPages(batch)) && batch != []
      requires ready == [batch[0].(read := false)] + batch[1..]
      ensures ready[1..] == batch[1..] && ready[0].page == batch[0].page
      ensures BatchPages(batch[1..]) == BatchPages(batch) - {batch[0].page}
    {
      BatchPagesSplit(batch);
    }

    /** Complete the reads of a batch, in order, and queue their uploads. */
    method Finish(batch: seq<Item>, ghost loaded: set<nat>) returns (ok: bool)
      requires Loading(batch, loaded, BatchPages(batch)) && Tally(g, counters, loads, served, batch) && CacheTells(batch)
      modifies this`lanes, this`counters, this`hw
      ensures hw.faults >= old(hw.faults) && (ok <==> hw.faults == old(hw.faults))
      ensures !ok ==> Sound()
      ensures ok ==> Loading([], loaded, {}) && Tally(g, counters, loads, served, []) && CacheTells([])
      ensures counters == old(counters).(fileBytes := counters.fileBytes, uploadedBytes := counters.uploadedBytes)
    {
      var rest := batch;
      ok := true;
      while ok && rest != []
        invariant hw.faults >= old(hw.faults) && (ok <==> hw.faults == old(hw.faults))
        invariant !ok ==> Sound()
        invariant ok ==> Loading(rest, loaded, BatchPages(rest)) && Tally(g, counters, loads, served, rest) && CacheTells(rest)
        invariant counters == old(counters).(fileBytes := counters.fileBytes, uploadedBytes := counters.uploadedBytes)
        decreases |rest|
      {
        ok := FinishItem(rest, loaded);
        rest := rest[1..];
      }
      assert BatchPages([]) == {};
    }

    // ----- Loading the missing pages of a request -----

    ghost predicate Counted()
      reads this
    {
      && counters.evictions + Mapped(slots) == counters.misses && counters.hits + counters.misses == asked
      && SameSizes(counters, sizes)
    }

    /** One missing page: take a slot, then a lane. */
    method LoadOne(page: nat, required: set<nat>, batch: seq<Item>, ghost loaded: set<nat>, ghost more: set<nat>) returns (ok: bool, longer: seq<Item>)
      requires Loading(batch, loaded, BatchPages(batch)) && Tally(g, counters, loads, served, batch) && CacheTells(batch) && Counted()
      requires |batch| < Min(2, |lanes|) && loaded <= required && more == loaded + {page}
      requires g.Has(page) && page in required && page !in loaded && |required| <= |slots| && !Resident(slots, page)
      modifies this`slots, this`lanes, this`clock, this`counters, this`hw, this`loads, this`served, this`asked
      ensures hw.faults >= old(hw.faults) && (ok <==> hw.faults == old(hw.faults))
      ensures !ok ==> Sound()
      ensures ok ==> Loading(longer, more, BatchPages(longer)) && Tally(g, counters, loads, served, longer) && CacheTells(longer) && Counted()
      ensures ok ==> |longer| == |batch| + 1 && Mapping() == Load(old(Mapping()), page, required)
      ensures ok ==> loads == old(loads) + [page] && asked == old(asked) + 1 && counters.hits == old(counters.hits)
    {
      longer := batch;
      ok := SeatPage(page, required, batch, loaded);
      if ok {
        ok, longer := TakeLane(page, batch, more, BatchPages(batch) + {page});
      }
    }

    method SeatPage(page: nat, required: set<nat>, ghost batch: seq<Item>, ghost loaded: set<nat>) returns (ok: bool)
      requires Loading(batch, loaded, BatchPages(batch)) && loaded <= required && CacheTells(batch)
      requires g.Has(page) && page in required && page !in loaded && |required| <= |slots| && !Resident(slots, page)
      modifies this`slots, this`clock, this`counters, this`hw
      ensures hw.faults >= old(hw.faults) && (ok <==> hw.faults == old(hw.faults))
      ensures !ok ==> Sound()
      ensures ok ==> Loading(batch, loaded + {page}, BatchPages(batch) + {page}) && page in hw.pages && CacheTells(batch)
      ensures ok ==> Pool(slots, clock + 1) == Load(old(Mapping()), page, required)
      ensures ok ==> counters.evictions + Mapped(slots) == old(counters.evictions + Mapped(slots)) + 1
      ensures counters == old(counters).(evictions := counters.evictions)
    {
      LoadingIsSound(batch, loaded, BatchPages(batch));
      var v;
      ghost var taken;
      v, taken := PickSlot(page, required);
      ok := TakeSlot(page, v, batch, loaded, taken);
      if ok {
        TicksTell(caching, lanes, batch, old(clock), clock, loads, served);
      }
    }

    /** What holds between requests, as long as nothing has failed. */
    ghost predicate Resting()
      reads this
    {
      && AtRest(g, Mapping(), lanes, hw) && 0 < |lanes| == buffers
      && (caching ==> CacheOk(lanes, []))
      && Tally(g, counters, loads, served, []) && CacheTells([]) && Counted()
    }

    ghost predicate Valid()
      reads this
    {
      Sound() && (!poisoned ==> Resting())
    }

    /** Load the missing pages of a request: wait for all earlier consumers, load page by page
      * through the batch, drain the stream, and withdraw write access. */
    method LoadMissing(missing: seq<nat>, required: set<nat>) returns (ok: bool)
      requires Sound() && Resting()
      requires |required| <= |slots| && Distinct(missing)
      requires forall q :: q in missing ==> q in required && g.Has(q) && !Resident(slots, q)
      modifies this`slots, this`lanes, this`clock, this`counters, this`hw, this`loads, this`served, this`asked
      ensures hw.faults >= old(hw.faults) && (ok <==> hw.faults == old(hw.faults))
      ensures Sound()
      ensures ok ==> Resting() && Mapping() == LoadAll(old(Mapping()), missing, required)
      ensures ok ==> loads == old(loads) + missing && asked == old(asked) + |missing| && counters.hits == old(counters.hits)
    {
      ok := AwaitConsumers();
      if !ok { return; }
      ok := LoadThrough(missing, required, Elements(missing));
      if !ok { return; }
      ok := DrainUploads(Elements(missing));
      if !ok { return; }
      LoadAllKeeps(old(Mapping()), missing, required);
      ok := Seal(missing);
    }

    /** Every page through the batch, and the last batch through the stream. */
    method LoadThrough(missing: seq<nat>, required: set<nat>, ghost all: set<nat>) returns (ok: bool)
      requires Loading([], {}, {}) && Tally(g, counters, loads, served, []) && CacheTells([]) && Counted()
      requires |required| <= |slots| && Distinct(missing) && all == Elements(missing)
      requires forall q :: q in missing ==> q in required && g.Has(q) && !Resident(slots, q)
      modifies this`slots, this`lanes, this`clock, this`counters, this`hw, this`loads, this`served, this`asked
      ensures hw.faults >= old(hw.faults) && (ok <==> hw.faults == old(hw.faults))
      ensures !ok ==> Sound()
      ensures ok ==> Loading([], all, {}) && Tally(g, counters, loads, served, []) && CacheTells([]) && Counted()
      ensures ok ==> Mapping() == LoadAll(old(Mapping()), missing, required)
      ensures ok ==> loads == old(loads) + missing && asked == old(asked) + |missing| && counters.hits == old(counters.hits)
    {
      var batch;
      ok, batch := LoadEach(missing, required);
      if ok {
        ok := Finish(batch, all);
      }
    }

    method DrainUploads(ghost loaded: set<nat>) returns (ok: bool)
      requires Loading([], loaded, {})
      modifies this`hw
      ensures hw.faults >= old(hw.faults) && (ok <==> hw.faults == old(hw.faults))
      ensures Sound()
      ensures ok ==> Loading([], loaded, {}) && hw.queue == []
      ensures ok ==> forall q :: Resident(slots, q) ==> q in hw.pages
    {
      ghost var before := hw;
      ok, hw := StreamSynchronize(hw);
      LoadingLater(g, Mapping(), lanes, before, hw, [], loaded, {}, {});
      LoadingIsSound([], loaded, {});
    }

    /** Withdraw write access to the pages just loaded. */
    method Seal(missing: seq<nat>) returns (ok: bool)
      requires Loading([], Elements(missing), {}) && hw.queue == []
      requires forall q :: q in missing ==> q in hw.pages
      modifies this`hw
      ensures hw.faults >= old(hw.faults) && (ok <==> hw.faults == old(hw.faults))
      ensures Sound()
      ensures ok ==> AtRest(g, Mapping(), lanes, hw) && (caching ==> CacheOk(lanes, []))
    {
      ghost var all := Elements(missing);
      ghost var left;
      ok, left := SealEach(missing, all);
      LoadingIsSound([], left, {});
      if ok {
        LoadingToRest(g, Mapping(), lanes, hw);
      }
    }

    method SealEach(missing: seq<nat>, ghost all: set<nat>) returns (ok: bool, ghost left: set<nat>)
      requires all == Elements(missing) && Loading([], all, {}) && hw.queue == []
      requires forall q :: q in all ==> q in hw.pages
      modifies this`hw
      ensures hw.faults >= old(hw.faults) && (ok <==> hw.faults == old(hw.faults))
      ensures Loading([], left, {})
      ensures ok ==> left == {} && hw.queue == []
    {
      ok := true;
      var k := 0;
      left := all;
      assert missing[0..] == missing;
      while ok && k < |missing|
        invariant k <= |missing| && (ok ==> left <= Elements(missing[k..]))
        invariant Loading([], left, {})
        invariant hw.faults >= old(hw.faults) && (ok <==> hw.faults == old(hw.faults))
        invariant ok ==> hw.queue == [] && forall q :: q in all ==> q in hw.pages
        decreases |missing| - k, ok
      {
        LeftAfter(left, missing, k);
        ok, left := SealOne(missing[k], left, all);
        k := k + 1;
      }
    }

    method SealOne(page: nat, ghost loaded: set<nat>, ghost all: set<nat>) returns (ok: bool, ghost left: set<nat>)
      requires Loading([], loaded, {}) && hw.queue == [] && page in all
      requires forall q :: q in all ==> q in hw.pages
      modifies this`hw
      ensures hw.faults >= old(hw.faults) && (ok <==> hw.faults == old(hw.faults))
      ensures Loading([], left, {})
      ensures ok ==> left == loaded - {page} && hw.queue == [] && forall q :: q in all ==> q in hw.pages
    {
      ghost var before := hw;
      left := loaded;
      ok, hw := Attempt(hw);
      LoadingLater(g, Mapping(), lanes, before, hw, [], loaded, {}, {});
      if ok {
        SealStep(g, Mapping(), lanes, hw, loaded, page);
        hw := SetAccess(hw, page, ReadOnly);
        left := loaded - {page};
      }
    }

    method AwaitConsumers() returns (ok: bool)
      requires Sound() && Resting()
      modifies this`hw
      ensures hw.faults >= old(hw.faults) && (ok <==> hw.faults == old(hw.faults))
      ensures Sound()
      ensures ok ==> Loading([], {}, {})
    {
      ghost var before := hw;
      ok, hw := StreamSynchronize(hw);
      RestLater(g, Mapping(), lanes, before, hw);
      if ok {
        RestToLoading(g, Mapping(), lanes, hw);
      }
    }

    method LoadEach(missing: seq<nat>, required: set<nat>) returns (ok: bool, batch: seq<Item>)
      requires Loading([], {}, {}) && Tally(g, counters, loads, served, []) && CacheTells([]) && Counted()
      requires |required| <= |slots| && Distinct(missing)
      requires forall q :: q in missing ==> q in required && g.Has(q) && !Resident(slots, q)
      modifies this`slots, this`lanes, this`clock, this`counters, this`hw, this`loads, this`served, this`asked
      ensures hw.faults >= old(hw.faults) && (ok <==> hw.faults == old(hw.faults))
      ensures !ok ==> Sound()
      ensures ok ==> Loading(batch, Elements(missing), BatchPages(batch)) && Tally(g, counters, loads, served, batch) && CacheTells(batch) && Counted()
      ensures ok ==> Mapping() == LoadAll(old(Mapping()), missing, required)
      ensures ok ==> loads == old(loads) + missing && asked == old(asked) + |missing| && counters.hits == old(counters.hits)
    {
      ghost var start, log, base, hits := Mapping(), loads, asked, counters.hits;
      ok, batch := true, [];
      ghost var done: seq<nat> := [];
      assert BatchPages([]) == {} && Elements(done) == {};
      var k := 0;
      while ok && k < |missing|
        invariant k <= |missing| && done == missing[..k]
        invariant hw.faults >= old(hw.faults) && (ok <==> hw.faults == old(hw.faults))
        invariant !ok ==> Sound()
        invariant ok ==> Progress(start, log, base, hits, done, required, batch) && |batch| < Min(2, |lanes|)
        decreases |missing| - k, ok
      {
        ghost var next := missing[..k + 1];
        NextMissing(start, missing, k, required, done, next, log);
        ok, batch := LoadNext(missing[k], start, log, base, hits, done, next, required, batch);
        done, k := next, k + 1;
      }
      assert ok ==> done == missing;
    }

    /** The pages `done` have been loaded, some of them still in the batch. */
    ghost predicate Progress(start: Pool, log: seq<nat>, base: nat, hits: nat, done: seq<nat>, required: set<nat>, batch: seq<Item>)
      reads this
    {
      && Loading(batch, Elements(done), BatchPages(batch)) && Tally(g, counters, loads, served, batch) && CacheTells(batch)
      && Counted() && |batch| <= Min(2, |lanes|)
      && Mapping() == LoadAll(start, done, required)
      && loads == log + done && asked == base + |done| && counters.hits == hits
    }

    /** The next missing page; the batch is finished as soon as it is full. */
    method LoadNext(page: nat, ghost start: Pool, ghost log: seq<nat>, ghost base: nat, ghost hits: nat,
                    ghost done: seq<nat>, ghost next: seq<nat>, required: set<nat>, batch: seq<Item>) returns (ok: bool, batch': seq<Item>)
      requires Progress(start, log, base, hits, done, required, batch) && |batch| < Min(2, |lanes|) && Elements(done) <= required
      requires g.Has(page) && page in required && page !in Elements(done) && |required| <= |slots| && !Resident(slots, page)
      requires next == done + [page] && log + next == log + done + [page] && Elements(next) == Elements(done) + {page}
      requires LoadAll(start, next, required) == Load(LoadAll(start, done, required), page, required)
      modifies this`slots, this`lanes, this`clock, this`counters, this`hw, this`loads, this`served, this`asked
      ensures hw.faults >= old(hw.faults) && (ok <==> hw.faults == old(hw.faults))
      ensures !ok ==> Sound()
      ensures ok ==> Progress(start, log, base, hits, next, required, batch') && |batch'| < Min(2, |lanes|)
      ensures ok ==> |batch'| == if |batch| + 1 < Min(2, |old(lanes)|) then |batch| + 1 else 0
    {
      ok, batch' := LoadMore(page, start, log, base, hits, done, next, required, batch);
      if ok && |batch'| == Min(2, |lanes|) {
        ok, batch' := Flush(start, log, base, hits, next, required, batch');
      }
    }

    method LoadMore(page: nat, ghost start: Pool, ghost log: seq<nat>, ghost base: nat, ghost hits: nat,
                    ghost done: seq<nat>, ghost next: seq<nat>, required: set<nat>, batch: seq<Item>) returns (ok: bool, longer: seq<Item>)
      requires Progress(start, log, base, hits, done, required, batch) && |batch| < Min(2, |lanes|) && Elements(done) <= required
      requires g.Has(page) && page in required && page !in Elements(done) && |required| <= |slots| && !Resident(slots, page)
      requires next == done + [page] && log + next == log + done + [page] && Elements(next) == Elements(done) + {page}
      requires LoadAll(start, next, required) == Load(LoadAll(start, done, required), page, required)
      modifies this`slots, this`lanes, this`clock, this`counters, this`hw, this`loads, this`served, this`asked
      ensures hw.faults >= old(hw.faults) && (ok <==> hw.faults == old(hw.faults))
      ensures !ok ==> Sound()
      ensures ok ==> Progress(start, log, base, hits, next, required, longer) && |longer| == |batch| + 1
    {
      ok, longer := LoadOne(page, required, batch, Elements(done), Elements(next));
    }

    /** Finish a full batch: at most two pages are in flight at a time. */
    method Flush(ghost start: Pool, ghost log: seq<nat>, ghost base: nat, ghost hits: nat,
                 ghost done: seq<nat>, ghost required: set<nat>, batch: seq<Item>) returns (ok: bool, batch': seq<Item>)
      requires Progress(start, log, base, hits, done, required, batch)
      modifies this`lanes, this`counters, this`hw
      ensures hw.faults >= old(hw.faults) && (ok <==> hw.faults == old(hw.faults))
      ensures !ok ==> Sound()
      ensures ok ==> Progress(start, log, base, hits, done, required, batch') && batch' == [] && 0 < |lanes| == buffers
    {
      ok := Finish(batch, Elements(done));
      batch' := [];
      assert BatchPages([]) == {};
    }

    // ----- The interface -----

    /** The pages `done` of the request have been looked up; those in `missing` were not resident. */
    ghost predicate LookedUp(start: Pool, done: seq<nat>, missing: seq<nat>)
      reads this
    {
      && AtRest(g, Mapping(), lanes, hw) && Tally(g, counters, loads, served, []) && CacheTells([]) && Counted()
      && Mapping() == HitAll(start, done) && missing == Missing(start.slots, done)
    }

    /** Stamp the pages that are resident, in request order, and collect the others. */
    method HitPages(pages: seq<nat>) returns (missing: seq<nat>)
      requires Sound() && Resting()
      modifies this`slots, this`clock, this`counters, this`asked
      ensures Sound() && LookedUp(old(Mapping()), pages, missing)
      ensures asked + |missing| == old(asked) + |pages|
    {
      missing := [];
      ghost var start, base := Mapping(), asked;
      assert pages[..0] == [];
      for k := 0 to |pages|
        invariant LookedUp(start, pages[..k], missing)
        invariant asked + |missing| == base + k
      {
        HitNext(start, pages, k);
        missing := HitPage(pages[k], start, pages[..k], pages[..k + 1], missing);
      }
      assert pages[..|pages|] == pages;
      RestIsSound();
    }

    lemma RestIsSound()
      requires AtRest(g, Mapping(), lanes, hw) && 0 < |lanes| == buffers
      ensures Sound()
    {
    }

    method HitPage(page: nat, ghost start: Pool, ghost done: seq<nat>, ghost next: seq<nat>, missing: seq<nat>) returns (missing': seq<nat>)
      requires LookedUp(start, done, missing)
      requires HitAll(start, next) == Hit(HitAll(start, done), page)
      requires Missing(start.slots, next) == Missing(start.slots, done) + if Resident(HitAll(start, done).slots, page) then [] else [page]
      modifies this`slots, this`clock, this`counters, this`asked
      ensures LookedUp(start, next, missing')
      ensures asked + |missing'| == old(asked) + |missing| + 1
    {
      missing' := missing;
      HitAtRest(g, Mapping(), lanes, hw, page);
      MappedAfterHit(Mapping(), page);
      ghost var after := Hit(Mapping(), page);
      var hit := Stamp(page, after);
      TicksTell(caching, lanes, [], old(clock), clock, loads, served);
      if !hit {
        missing' := missing + [page];
      }
    }

    /** Stamp one page, if it is resident. */
    method Stamp(page: nat, ghost after: Pool) returns (hit: bool)
      requires PoolOk(Mapping()) && after == Hit(Mapping(), page)
      modifies this`slots, this`clock, this`counters, this`asked
      ensures hit <==> Resident(old(slots), page)
      ensures Mapping() == after && clock >= old(clock)
      ensures counters == old(counters).(hits := old(counters).hits + if hit then 1 else 0)
      ensures asked == old(asked) + if hit then 1 else 0
    {
      var i;
      hit, i := Find(page);
      if hit {
        SlotOfUnique(Mapping(), i, page);
        clock := clock + 1;
        slots := slots[i := slots[i].(used := clock)];
        counters := counters.(hits := counters.hits + 1);
        asked := asked + 1;
      }
    }

    /** The pages of the spans, with all their bytes, are there to be read by any consumer. */
    ghost predicate Serves(m: Machine, spans: seq<Span>)
      reads this
      requires g.Valid() && Shaped(m) && AllInFile(g, spans)
    {
      && (forall k, a :: 0 <= k < |spans| && spans[k].offset <= a < spans[k].offset + spans[k].bytes ==> ReadsByte(g, m, a))
      && (forall page :: page in Union(g, spans) ==> ReadsPadding(g, m, page))
    }

    lemma RequestServed(spans: seq<Span>, pages: seq<nat>)
      requires Valid() && !poisoned && AllInFile(g, spans) && pages == Union(g, spans)
      requires forall page :: page in pages ==> Resident(slots, page)
      ensures forall m :: Later(hw, m) ==> Serves(m, spans)
    {
      forall m | Later(hw, m) ensures Serves(m, spans) {
        RestLater(g, Mapping(), lanes, hw, m);
        ServedAtRest(spans, m);
      }
    }

    lemma ServedAtRest(spans: seq<Span>, m: Machine)
      requires AtRest(g, Mapping(), lanes, m) && AllInFile(g, spans)
      requires forall page :: page in Union(g, spans) ==> Resident(slots, page)
      ensures Serves(m, spans)
    {
      forall k, a | 0 <= k < |spans| && spans[k].offset <= a < spans[k].offset + spans[k].bytes ensures ReadsByte(g, m, a) {
        ByteIsCovered(g, spans, k, a);
        ResidentByteReads(g, Mapping(), lanes, m, a);
      }
      forall page | page in Union(g, spans) ensures ReadsPadding(g, m, page) {
        ResidentReads(g, Mapping(), lanes, m, page);
      }
    }

    /** Make all spans resident at once. `owner` says whether the caller is on the owning thread
      * with the original context current. */
    method AcquireMany(spans: seq<Span>, owner: bool) returns (r: Outcome)
      requires Valid()
      modifies this
      ensures Valid()
      // Refusals change nothing, and say why.
      ensures !owner ==> r == Failed(NotOwner)
      ensures owner && old(poisoned) ==> r == Failed(Unusable)
      ensures owner && !old(poisoned) ==>
                (r.Done? || r == Failed(DriverFailure) <==> AllInFile(g, spans) && |Union(g, spans)| <= |old(slots)|)
      ensures r.Failed? && r.error in {OutsideFile, TooLarge} ==> exists k: nat :: Offends(g, spans, k, |old(slots)|, r.error)
      ensures r.Failed? && r.error != DriverFailure ==> unchanged(this)
      // The only other failure is the driver's: a call that failed, or a read that ended short.
      ensures hw.faults >= old(hw.faults) && (r == Failed(DriverFailure) <==> hw.faults > old(hw.faults))
      ensures owner && !old(poisoned) ==>
                (r.Done? <==> AllInFile(g, spans) && |Union(g, spans)| <= |old(slots)| && hw.faults == old(hw.faults))
      // A failure while loading is for good.
      ensures r == Failed(DriverFailure) <==> poisoned && !old(poisoned)
      // Success: every byte of every span reads as in the file, however long the consumers take.
      ensures r.Done? ==> !poisoned && AllInFile(g, spans) && forall m :: Later(hw, m) ==> Serves(m, spans)
      // Which pages are resident, and in which slots, is decided by the slots alone.
      ensures r.Done? ==> Mapping() == Request(old(Mapping()), Union(g, spans))
      ensures r.Done? ==> loads == old(loads) + Missing(old(slots), Union(g, spans)) && asked == old(asked) + |Union(g, spans)|
      // A resident request touches no driver state: no barrier, no mapping, no copy.
      ensures r.Done? && Missing(old(slots), Union(g, spans)) == [] ==> hw == old(hw) && lanes == old(lanes)
      ensures r == Failed(DriverFailure) ==> Missing(old(slots), Union(g, spans)) != []
    {
      if !owner {
        return Failed(NotOwner);
      }
      if poisoned {
        return Failed(Unusable);
      }
      var plan := CollectPages(g, spans, |slots|);
      if plan.Rejected? {
        return Failed(plan.error);
      }
      r := Bring(plan.pages, spans);
    }

    method Bring(pages: seq<nat>, ghost spans: seq<Span>) returns (r: Outcome)
      requires Valid() && !poisoned
      requires AllInFile(g, spans) && pages == Union(g, spans) && |pages| <= |slots|
      modifies this
      ensures hw.faults >= old(hw.faults) && (r.Done? <==> hw.faults == old(hw.faults))
      ensures Valid()
      ensures r == Done || r == Failed(DriverFailure)
      ensures r == Failed(DriverFailure) <==> poisoned
      ensures r.Done? ==> forall m :: Later(hw, m) ==> Serves(m, spans)
      ensures r.Done? ==> Mapping() == Request(old(Mapping()), pages)
      ensures r.Done? ==> loads == old(loads) + Missing(old(slots), pages) && asked == old(asked) + |pages|
      ensures r.Done? && Missing(old(slots), pages) == [] ==> hw == old(hw) && lanes == old(lanes)
      ensures r == Failed(DriverFailure) ==> Missing(old(slots), pages) != []
    {
      ghost var start := Mapping();
      UnionIsFit(spans, pages);
      var ok := BringPages(pages);
      if ok {
        RequestKeeps(start, pages);
        RequestServed(spans, pages);
      }
      r := if ok then Done else Failed(DriverFailure);
    }

    /** Hits, then misses; a failure while loading is remembered. */
    method BringPages(pages: seq<nat>) returns (ok: bool)
      requires Valid() && !poisoned
      requires Distinct(pages) && |pages| <= |slots| && forall q :: q in pages ==> g.Has(q)
      modifies this
      ensures hw.faults >= old(hw.faults) && (ok <==> hw.faults == old(hw.faults))
      ensures Valid() && (ok <==> !poisoned)
      ensures ok ==> Mapping() == Request(old(Mapping()), pages)
      ensures ok ==> loads == old(loads) + Missing(old(slots), pages) && asked == old(asked) + |pages|
      ensures Missing(old(slots), pages) == [] ==> ok && hw == old(hw) && lanes == old(lanes)
    {
      BeforeLoading(Mapping(), pages);
      var missing := HitPages(pages);
      ok := LoadIfMissing(missing, Elements(pages));
    }

    method LoadIfMissing(missing: seq<nat>, required: set<nat>) returns (ok: bool)
      requires Sound() && Resting() && !poisoned
      requires |required| <= |slots| && Distinct(missing)
      requires forall q :: q in missing ==> q in required && g.Has(q) && !Resident(slots, q)
      modifies this
      ensures hw.faults >= old(hw.faults) && (ok <==> hw.faults == old(hw.faults))
      ensures Valid() && (ok <==> !poisoned)
      ensures ok ==> Mapping() == LoadAll(old(Mapping()), missing, required)
      ensures ok ==> loads == old(loads) + missing && asked == old(asked) + |missing|
      ensures missing == [] ==> ok && hw == old(hw) && lanes == old(lanes)
    {
      ok := true;
      if missing != [] {
        ok := LoadMissing(missing, required);
        poisoned := !ok;
      }
    }

    lemma UnionIsFit(spans: seq<Span>, pages: seq<nat>)
      requires g.Valid() && AllInFile(g, spans) && pages == Union(g, spans)
      ensures Distinct(pages) && forall q :: q in pages ==> g.Has(q)
    {
      UnionElements(g, spans);
      forall q | q in pages ensures g.Has(q) {
        UnionInFile(g, spans, q);
      }
    }

    lemma BeforeLoading(p: Pool, pages: seq<nat>)
      requires g.Valid() && PoolOk(p)
      requires Distinct(pages) && |pages| <= |p.slots| && forall q :: q in pages ==> g.Has(q)
      ensures |Elements(pages)| <= |p.slots| && Distinct(Missing(p.slots, pages)) && |HitAll(p, pages).slots| == |p.slots|
      ensures forall q :: q in Missing(p.slots, pages) ==>
                q in Elements(pages) && g.Has(q) && !Resident(HitAll(p, pages).slots, q)
      ensures Missing(p.slots, pages) == [] ==> Request(p, pages) == HitAll(p, pages)
    {
      DistinctCount(pages);
      MissingElements(p.slots, pages);
      HitAllKeeps(p, pages);
    }

    /** One span; the address of a resident page never changes, so the caller gets base + offset. */
    method Acquire(offset: nat, bytes: nat, owner: bool) returns (r: Outcome)
      requires Valid()
      modifies this
      ensures Valid()
      ensures r.Failed? && r.error != DriverFailure ==> unchanged(this)
      ensures hw.faults >= old(hw.faults) && (r == Failed(DriverFailure) <==> hw.faults > old(hw.faults))
      ensures owner && !old(poisoned) ==> (r.Done? <==> OneSpanFits(Span(offset, bytes), |old(slots)|) && hw.faults == old(hw.faults))
      ensures r.Done? ==> InFile(g, Span(offset, bytes))
      ensures r.Done? ==> forall m, a :: Later(hw, m) && offset <= a < offset + bytes ==> ReadsByte(g, m, a)
    {
      var span := Span(offset, bytes);
      OneSpan(span, |slots|);
      r := AcquireMany([span], owner);
      if r.Done? {
        ServesOne(span);
      }
    }

    ghost predicate OneSpanFits(span: Span, capacity: nat)
      requires g.Valid()
    {
      InFile(g, span) && Last(g, span) - First(g, span) < capacity
    }

    lemma OneSpan(span: Span, capacity: nat)
      requires g.Valid()
      ensures OneSpanFits(span, capacity) <==> AllInFile(g, [span]) && |Union(g, [span])| <= capacity
    {
      assert [span][0] == span;
      if InFile(g, span) {
        UnionOfOne(g, span);
      }
    }

    lemma ServesOne(span: Span)
      requires g.Valid() && AllInFile(g, [span]) && Shaped(hw)
      requires forall m :: Later(hw, m) ==> Serves(m, [span])
      ensures forall m, a :: Later(hw, m) && span.offset <= a < span.offset + span.bytes ==> ReadsByte(g, m, a)
    {
      forall m, a | Later(hw, m) && span.offset <= a < span.offset + span.bytes ensures ReadsByte(g, m, a) {
        assert Serves(m, [span]) && [span][0].offset <= a < [span][0].offset + [span][0].bytes;
      }
    }

    /** Make the tensor's stream wait for what was submitted on another stream. */
    method RecordUse(stream: nat, owner: bool) returns (r: Outcome)
      requires Valid()
      modifies this`hw, this`poisoned
      ensures Valid()
      ensures !owner ==> r == Failed(NotOwner)
      ensures owner && old(poisoned) ==> r == Failed(Unusable)
      ensures r.Failed? && r.error != DriverFailure ==> unchanged(this)
      ensures r == Failed(DriverFailure) <==> poisoned && !old(poisoned)
      ensures hw.faults >= old(hw.faults) && (r == Failed(DriverFailure) <==> hw.faults > old(hw.faults))
      ensures owner && !old(poisoned) ==> (r.Done? <==> hw.faults == old(hw.faults))
      ensures hw.pages == old(hw.pages)
      // Every job submitted there is waited for and, if its pages are resident, keeps them meanwhile.
      ensures r.Done? ==> forall j :: j in hw.jobs && hw.jobs[j].stream == stream ==>
                Awaited(hw.queue, j) && (hw.jobs[j].pages <= hw.pages.Keys ==> hw.jobs[j].fenced)
    {
      if !owner {
        return Failed(NotOwner);
      }
      if poisoned {
        return Failed(Unusable);
      }
      var ok := TryAtRest();
      if ok {
        ok := TryAtRest();
      }
      if ok {
        FenceStream(stream);
        r := Done;
      } else {
        poisoned := true;
        r := Failed(DriverFailure);
      }
    }

    method FenceStream(stream: nat)
      requires Valid() && !poisoned
      modifies this`hw
      ensures hw.faults == old(hw.faults)
      ensures Valid() && hw.pages == old(hw.pages)
      ensures forall j :: j in hw.jobs && hw.jobs[j].stream == stream ==>
                Awaited(hw.queue, j) && (hw.jobs[j].pages <= hw.pages.Keys ==> hw.jobs[j].fenced)
    {
      ghost var before := hw;
      hw := Fence(hw, stream);
      FencedAtRest(before, hw);
    }

    method TryAtRest() returns (ok: bool)
      requires Valid() && !poisoned
      modifies this`hw
      ensures hw.faults >= old(hw.faults) && (ok <==> hw.faults == old(hw.faults))
      ensures Valid() && hw.pages == old(hw.pages)
    {
      ghost var before := hw;
      ok, hw := Attempt(hw);
      RestLater(g, Mapping(), lanes, before, hw);
    }

    lemma FencedAtRest(before: Machine, after: Machine)
      requires AtRest(g, Mapping(), lanes, before) && Clean(after)
      requires after == before.(queue := after.queue, jobs := after.jobs)
      requires |after.queue| == |before.queue| + 1 && after.queue[..|before.queue|] == before.queue
      requires !after.queue[|before.queue|].Copy? && !after.queue[|before.queue|].Clear?
      ensures AtRest(g, Mapping(), lanes, after)
    {
      assert after.queue[|before.queue|..] == [after.queue[|before.queue|]];
      ConsumerAtRest(g, Mapping(), lanes, before, after);
    }

    // ----- The client's side: consumers of resident pages -----

    /** Submit a consumer on the tensor's own stream. */
    method Launch(pages: set<nat>)
      requires Valid() && pages <= hw.pages.Keys
      modifies this`hw
      ensures hw.faults == old(hw.faults)
      ensures Valid()
      ensures hw == old(hw).(queue := old(hw).queue + [Kernel(pages)])
    {
      ghost var before := hw;
      hw := Enqueue(hw, Kernel(pages));
      if !poisoned {
        FencedAtRest(before, hw);
      }
    }

    /** Submit a consumer on another stream; it is protected once `RecordUse` has been called. */
    method LaunchElsewhere(job: nat, stream: nat, pages: set<nat>)
      requires Valid() && job !in hw.jobs && pages <= hw.pages.Keys
      modifies this`hw
      ensures hw.faults == old(hw.faults)
      ensures Valid()
      ensures hw == old(hw).(jobs := old(hw).jobs[job := Job(stream, pages, false)])
    {
      ghost var before := hw;
      hw := Submit(hw, job, stream, pages);
      if !poisoned {
        assert hw.queue[..|before.queue|] == before.queue;
        assert hw.queue[|before.queue|..] == [];
        ConsumerAtRest(g, Mapping(), lanes, before, hw);
      }
    }

    /** Time passes between two calls. */
    method Wait()
      requires Valid()
      modifies this`hw
      ensures hw.faults == old(hw.faults)
      ensures Valid() && Later(old(hw), hw)
    {
      ghost var before := hw;
      hw := Elapse(hw);
      if !poisoned {
        RestLater(g, Mapping(), lanes, before, hw);
      }
    }

    /** Every resident page is there to be read: its part of the file, then zeros, read-only. */
    lemma ResidentPagesRead()
      requires Valid() && !poisoned
      ensures forall page :: Resident(slots, page) ==>
                page in hw.pages && hw.pages[page].access == ReadOnly && hw.vram[hw.pages[page].handle] == g.Image(page)
    {
      forall page | Resident(slots, page)
        ensures page in hw.pages && hw.pages[page].access == ReadOnly && hw.vram[hw.pages[page].handle] == g.Image(page)
      {
        ResidentReads(g, Mapping(), lanes, hw, page);
      }
    }

    /** The host cache holds exactly the pages loaded last, as many as it has buffers, and the counters
      * say which loads it spared. */
    lemma CacheHoldsRecent()
      requires Valid() && !poisoned
      ensures caching ==> forall page :: page != NO_PAGE ==> (Cached(lanes, page) <==> Recent(loads, page, buffers))
      ensures served == if caching then HostHits(loads, buffers) else []
      ensures counters.hostHits == |served| && counters.fileBytes + Total(g, served) == counters.uploadedBytes == Total(g, loads)
    {
      if caching {
        forall page | page != NO_PAGE ensures Cached(lanes, page) <==> Recent(loads, page, buffers) {
          CachedAreRecent(lanes, clock, loads, page);
        }
      }
    }

    /** No page is ever unmapped under unfinished work: at every moment, after any calls, the pages
      * of every queued consumer and of every fenced job still running are mapped. */
    lemma ConsumersKeepTheirPages()
      requires Valid()
      ensures forall i :: 0 <= i < |hw.queue| && hw.queue[i].Kernel? ==> hw.queue[i].pages <= hw.pages.Keys
      ensures forall j :: j in hw.jobs && hw.jobs[j].fenced ==> hw.jobs[j].pages <= hw.pages.Keys
    {
      assert forall i :: 0 <= i < |hw.queue| ==> Ready(hw, hw.queue[i]);
    }

    // ----- Destruction -----

    /** The destructor, also after a failure: no host buffer is released while the disk may still
      * write to it, and every mapping is undone, drained or not. */
    method Close(synchronized: bool)
      requires Valid()
      modifies this`hw
      ensures AllIdle(hw) && hw.pages == map[]
      ensures synchronized ==> hw.queue == [] && Clean(hw)
      // Unfinished work keeps what it needs exactly if it needs no page.
      ensures Clean(hw) <==> Pageless(hw)
    {
      EndReads();
      if synchronized {
        hw := Drained(hw);
      } else {
        hw := Elapse(hw);
      }
      UnmapAll();
    }

    /** Cancel and await every pending read. */
    method EndReads()
      requires Sound()
      modifies this`hw
      ensures Clean(hw) && MapOk(slots, hw) && AllIdle(hw)
    {
      for l := 0 to |lanes|
        invariant Clean(hw) && MapOk(slots, hw) && |lanes| == |hw.reading|
        invariant forall k :: 0 <= k < |lanes| && hw.reading[k].InFlight? ==> l <= k && lanes[k].pending
      {
        if lanes[l].pending {
          hw := Elapse(hw);
          if hw.reading[l].InFlight? {
            hw := EndRead(hw, l, hw.host[l]);
          }
        }
      }
    }

    method UnmapAll()
      requires Clean(hw) && MapOk(slots, hw) && AllIdle(hw)
      modifies this`hw
      ensures hw == old(hw).(pages := map[])
      ensures Clean(hw) <==> Pageless(hw)
    {
      ghost var before := hw;
      for i := 0 to |slots|
        invariant hw == before.(pages := hw.pages)
        invariant forall p :: p in hw.pages ==> p in before.pages && hw.pages[p] == before.pages[p] && i <= hw.pages[p].handle
      {
        if slots[i].mapped {
          hw := hw.(pages := hw.pages - {slots[i].page});
        }
      }
      assert forall p :: p in hw.pages ==> hw.pages[p].handle < |slots|;
      assert hw.pages == map[];
      UnmappedIsClean(before, hw);
    }
  }

  /** The pool and the missing pages after one page more of the request. */
  lemma HitNext(p: Pool, pages: seq<nat>, k: nat)
    requires PoolOk(p) && k < |pages|
    ensures PoolOk(HitAll(p, pages[..k]))
    ensures HitAll(p, pages[..k + 1]) == Hit(HitAll(p, pages[..k]), pages[k])
    ensures Missing(p.slots, pages[..k + 1]) ==
            Missing(p.slots, pages[..k]) + if Resident(HitAll(p, pages[..k]).slots, pages[k]) then [] else [pages[k]]
  {
    HitAllKeeps(p, pages[..k]);
    assert pages[..k + 1][..k] == pages[..k];
  }

  lemma LeftAfter(left: set<nat>, missing: seq<nat>, k: nat)
    requires k < |missing| && left <= Elements(missing[k..])
    ensures left - {missing[k]} <= Elements(missing[k + 1..])
    ensures missing[k] in missing
  {
    assert missing[k..] == [missing[k]] + missing[k + 1..];
  }

  /** The next missing page of a request is still missing when its turn comes. */
  lemma NextMissing(p: Pool, missing: seq<nat>, k: nat, required: set<nat>, done: seq<nat>, next: seq<nat>, log: seq<nat>)
    requires PoolOk(p) && |required| <= |p.slots| && Distinct(missing) && k < |missing|
    requires forall q :: q in missing ==> q in required && !Resident(p.slots, q)
    requires done == missing[..k] && next == missing[..k + 1]
    ensures !Resident(LoadAll(p, done, required).slots, missing[k])
    ensures |LoadAll(p, done, required).slots| == |p.slots|
    ensures missing[k] !in Elements(done) && Elements(done) <= required
    ensures Elements(next) == Elements(done) + {missing[k]}
    ensures LoadAll(p, next, required) == Load(LoadAll(p, done, required), missing[k], required)
    ensures next == done + [missing[k]] && log + next == log + done + [missing[k]]
  {
    LoadAllKeeps(p, done, required);
    assert next[..|next| - 1] == done;
    assert next == done + [missing[k]];
  }
}
