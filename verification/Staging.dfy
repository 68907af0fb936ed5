/** Host lanes, the two-deep batch of pending uploads, and what holds between them and the device. */
module Staging {
  import opened Pages
  import opened Machines
  import opened Residency

  /** A pinned host buffer: the page it holds, when it was last used, the bytes of its last read. */
  datatype Lane = Lane(page: nat, used: nat, wanted: nat, pending: bool)

  /** A page on its way to the device: from a file read, or from a buffer that already holds it. */
  datatype Item = Item(page: nat, lane: nat, read: bool)

  // ----- Bookkeeping agrees with the device -----

  predicate PagesReal(g: Geometry, slots: seq<Slot>)
    requires g.Valid()
  {
    forall i :: 0 <= i < |slots| && slots[i].mapped ==> g.Has(slots[i].page)
  }

  /** The slots and the device agree on what is mapped where. */
  predicate MapOk(slots: seq<Slot>, m: Machine) {
    && |m.vram| == |slots|
    && (forall i :: 0 <= i < |slots| && slots[i].mapped ==> slots[i].page in m.pages && m.pages[slots[i].page].handle == i)
    && (forall p :: p in m.pages ==> Holds(slots, m.pages[p].handle, p))
  }

  /** A lane that names a page holds exactly that part of the file. */
  predicate LaneOk(g: Geometry, lane: Lane, read: FileRead, buffer: seq<Byte>)
    requires g.Valid()
  {
    && (lane.page != NO_PAGE ==>
          g.Has(lane.page) && read.Idle? && lane.wanted == g.Bytes(lane.page)
          && lane.wanted <= |buffer| && buffer[..lane.wanted] == g.Content(lane.page))
    && (read.InFlight? ==> lane.pending)
  }

  predicate LanesOk(g: Geometry, lanes: seq<Lane>, m: Machine)
    requires g.Valid() && Shaped(m)
  {
    && |lanes| == |m.reading|
    && forall l :: 0 <= l < |lanes| ==> LaneOk(g, lanes[l], m.reading[l], m.host[l])
  }

  /** No page is cached twice, nor read while it is cached. */
  predicate CacheOk(lanes: seq<Lane>, batch: seq<Item>) {
    && (forall a, b :: 0 <= a < b < |lanes| && lanes[a].page == lanes[b].page ==> lanes[a].page == NO_PAGE)
    && (forall b, l :: 0 <= b < |batch| && batch[b].read && 0 <= l < |lanes| ==> lanes[l].page != batch[b].page)
  }

  /** The pages being loaded may be written, the others (but the excepted ones) only read. */
  predicate AccessOk(m: Machine, loaded: set<nat>, except: set<nat>) {
    forall p :: p in m.pages ==>
      && (p in loaded ==> m.pages[p].access == ReadWrite)
      && (p !in loaded && p !in except ==> m.pages[p].access == ReadOnly)
  }

  /** Once the stream drains, every mapped page but the excepted ones holds its part of the file. */
  predicate ContentOk(g: Geometry, slots: seq<Slot>, m: Machine, except: set<nat>)
    requires g.Valid() && PagesReal(g, slots) && |m.vram| == |slots|
  {
    forall i :: 0 <= i < |slots| && slots[i].mapped && slots[i].page !in except ==> Final(m)[i] == g.Image(slots[i].page)
  }

  /** The upload at `i` is followed by its lane's event. */
  predicate Signalled(queue: seq<Op>, i: nat)
    requires i < |queue| && queue[i].Copy?
  {
    exists j :: i < j < |queue| && queue[j] == Signal(queue[i].lane)
  }

  /** While a request loads, the stream carries nothing but its uploads, each followed by its
    * event; only the `open` lanes still have to record theirs. */
  predicate QueueOk(m: Machine, loaded: set<nat>, open: set<nat>) {
    forall i :: 0 <= i < |m.queue| ==>
      match m.queue[i]
      case Copy(page, lane, _) => page in loaded && (lane in open || Signalled(m.queue, i))
      case Clear(page, _) => page in loaded
      case Signal(_) => true
      case _ => false
  }

  predicate ItemOk(g: Geometry, item: Item, lanes: seq<Lane>, m: Machine)
    requires g.Valid() && Shaped(m) && |lanes| == |m.reading|
  {
    && item.lane < |lanes| && !Uploading(m, item.lane)
    && item.page in m.pages && g.Has(item.page)
    && lanes[item.lane].wanted == g.Bytes(item.page)
    && if item.read then
         lanes[item.lane].page == NO_PAGE && m.reading[item.lane] == InFlight(g.Offset(item.page), g.Bytes(item.page))
       else
         lanes[item.lane].page == item.page
  }

  predicate BatchOk(g: Geometry, batch: seq<Item>, lanes: seq<Lane>, m: Machine)
    requires g.Valid() && Shaped(m) && |lanes| == |m.reading|
  {
    && (forall b :: 0 <= b < |batch| ==> ItemOk(g, batch[b], lanes, m))
    && (forall a, b :: 0 <= a < b < |batch| ==> batch[a].lane != batch[b].lane && batch[a].page != batch[b].page)
    && (forall l :: 0 <= l < |lanes| && m.reading[l].InFlight? ==> Busy(batch, l))
  }

  predicate Busy(batch: seq<Item>, lane: nat) {
    exists b :: 0 <= b < |batch| && batch[b].lane == lane
  }

  function BatchPages(batch: seq<Item>): set<nat> {
    set b | 0 <= b < |batch| :: batch[b].page
  }

  /** Everything that holds in the middle of loading a request. */
  predicate Loading(g: Geometry, p: Pool, lanes: seq<Lane>, m: Machine, batch: seq<Item>,
                    loaded: set<nat>, except: set<nat>, open: set<nat>) {
    match p
    case Pool(slots, _) =>
      && g.Valid() && Clean(m) && m.chunk == g.chunk
      && PoolOk(p) && PagesReal(g, slots) && MapOk(slots, m)
      && LanesOk(g, lanes, m)
      && AccessOk(m, loaded, except) && QueueOk(m, loaded, open) && ContentOk(g, slots, m, except)
      && BatchOk(g, batch, lanes, m) && BatchPages(batch) <= except * loaded
  }

  /** What holds even after a failure: nothing unfinished can go wrong, the slots say what is
    * mapped, and every buffer a read may still write to is known to be pending. */
  predicate Steady(g: Geometry, slots: seq<Slot>, lanes: seq<Lane>, m: Machine) {
    match g
    case Geometry(_, chunk) =>
      && g.Valid() && Clean(m) && m.chunk == chunk && MapOk(slots, m)
      && |lanes| == |m.reading| && forall l :: 0 <= l < |lanes| && m.reading[l].InFlight? ==> lanes[l].pending
  }

  // ----- Time passing changes none of this -----

  lemma SignalledLater(queue: seq<Op>, k: nat, i: nat)
    requires k + i < |queue| && queue[k + i].Copy? && Signalled(queue, k + i)
    ensures Signalled(queue[k..], i)
  {
    var j :| k + i < j < |queue| && queue[j] == Signal(queue[k + i].lane);
    assert queue[k..][j - k] == queue[j];
  }

  lemma QueueLater(m: Machine, m': Machine, loaded: set<nat>, open: set<nat>)
    requires QueueOk(m, loaded, open) && Later(m, m')
    ensures QueueOk(m', loaded, open)
  {
    var k := |m.queue| - |m'.queue|;
    forall i | 0 <= i < |m'.queue| && m'.queue[i].Copy? ensures m'.queue[i].lane in open || Signalled(m'.queue, i) {
      assert m.queue[k + i] == m'.queue[i];
      if m'.queue[i].lane !in open {
        SignalledLater(m.queue, k, i);
      }
    }
    assert forall i :: 0 <= i < |m'.queue| ==> m'.queue[i] == m.queue[k + i];
  }

  lemma UploadingLater(m: Machine, m': Machine, lane: nat)
    requires Later(m, m') && Uploading(m', lane)
    ensures Uploading(m, lane)
  {
    var i :| 0 <= i < |m'.queue| && m'.queue[i].Copy? && m'.queue[i].lane == lane;
    assert m.queue[|m.queue| - |m'.queue| + i] == m'.queue[i];
  }

  lemma BatchLater(g: Geometry, batch: seq<Item>, lanes: seq<Lane>, m: Machine, m': Machine)
    requires g.Valid() && Shaped(m) && |lanes| == |m.reading|
    requires BatchOk(g, batch, lanes, m) && Later(m, m')
    ensures BatchOk(g, batch, lanes, m')
  {
    forall b | 0 <= b < |batch| ensures ItemOk(g, batch[b], lanes, m') {
      assert ItemOk(g, batch[b], lanes, m);
      if Uploading(m', batch[b].lane) {
        UploadingLater(m, m', batch[b].lane);
      }
    }
  }

  lemma LoadingLater(g: Geometry, p: Pool, lanes: seq<Lane>, m: Machine, m': Machine,
                     batch: seq<Item>, loaded: set<nat>, except: set<nat>, open: set<nat>)
    requires Loading(g, p, lanes, m, batch, loaded, except, open) && Later(m, m')
    ensures Loading(g, p, lanes, m', batch, loaded, except, open)
  {
    QueueLater(m, m', loaded, open);
    BatchLater(g, batch, lanes, m, m');
    forall l | 0 <= l < |lanes| ensures LaneOk(g, lanes[l], m'.reading[l], m'.host[l]) {
      assert LaneOk(g, lanes[l], m.reading[l], m.host[l]);
    }
  }

  // ----- Each step of a load -----

  /** Nothing unfinished uses a page outside the request: its mapping may go. */
  lemma OutsideIsUnused(m: Machine, loaded: set<nat>, open: set<nat>, page: nat)
    requires Clean(m) && QueueOk(m, loaded, open) && page !in loaded
    ensures Unused(m, page)
  {
  }

  lemma EvictStep(g: Geometry, p: Pool, p': Pool, lanes: seq<Lane>, m: Machine, batch: seq<Item>,
                  loaded: set<nat>, except: set<nat>, open: set<nat>, v: nat)
    requires Loading(g, p, lanes, m, batch, loaded, except, open)
    requires v < |p.slots| && p.slots[v].mapped && p.slots[v].page !in loaded && p.slots[v].page !in except
    requires p' == Pool(p.slots[v := p.slots[v].(mapped := false)], p.clock)
    ensures Unused(m, p.slots[v].page)
    ensures Loading(g, p', lanes, Unmap(m, p.slots[v].page), batch, loaded, except, open)
  {
    var page := p.slots[v].page;
    OutsideIsUnused(m, loaded, open, page);
    UnmapKeepsClean(m, page);
    var m' := Unmap(m, page);
    UnmapKeepsMap(p.slots, m, v, p'.slots, m'.pages);
    forall b | 0 <= b < |batch| ensures batch[b].page in m'.pages {
      assert ItemOk(g, batch[b], lanes, m) && batch[b].page in BatchPages(batch);
    }
    BatchStays(g, batch, lanes, m, m');
  }

  lemma UnmapKeepsMap(slots: seq<Slot>, m: Machine, v: nat, slots': seq<Slot>, pages': map<nat, Mapping>)
    requires MapOk(slots, m) && v < |slots| && slots[v].mapped
    requires slots' == slots[v := slots[v].(mapped := false)] && pages' == m.pages - {slots[v].page}
    requires forall i, j :: 0 <= i < j < |slots| && slots[i].mapped && slots[j].mapped ==> slots[i].page != slots[j].page
    ensures MapOk(slots', m.(pages := pages'))
  {
    forall q | q in pages' ensures Holds(slots', pages'[q].handle, q) {
      assert Holds(slots, m.pages[q].handle, q);
    }
  }

  /** A batch minds only that its pages stay mapped, while the queue and the reads stay as they are. */
  lemma BatchStays(g: Geometry, batch: seq<Item>, lanes: seq<Lane>, m: Machine, m': Machine)
    requires g.Valid() && Shaped(m) && Shaped(m') && |lanes| == |m.reading| && BatchOk(g, batch, lanes, m)
    requires m'.queue == m.queue && m'.reading == m.reading && forall b :: 0 <= b < |batch| ==> batch[b].page in m'.pages
    ensures BatchOk(g, batch, lanes, m')
  {
    forall b | 0 <= b < |batch| ensures ItemOk(g, batch[b], lanes, m') {
      assert ItemOk(g, batch[b], lanes, m);
      UploadingSame(m, m', batch[b].lane);
    }
  }

  lemma UploadingSame(m: Machine, m': Machine, lane: nat)
    requires m'.queue == m.queue
    ensures Uploading(m', lane) <==> Uploading(m, lane)
  {
  }

  lemma MapStep(g: Geometry, p: Pool, p': Pool, lanes: seq<Lane>, m: Machine, batch: seq<Item>,
                loaded: set<nat>, except: set<nat>, open: set<nat>, v: nat, page: nat)
    requires Loading(g, p, lanes, m, batch, loaded, except, open)
    requires v < |p.slots| && !p.slots[v].mapped && g.Has(page) && page !in m.pages && page !in loaded
    requires p' == Pool(p.slots[v := Slot(page, p.clock + 1, true)], p.clock + 1)
    ensures Loading(g, p', lanes, Map(m, page, v), batch, loaded, except + {page}, open)
  {
    MapKeepsClean(m, page, v);
    var m' := Map(m, page, v);
    MapKeepsMap(p.slots, m, v, page, p'.slots, m'.pages);
    forall b | 0 <= b < |batch| ensures batch[b].page in m'.pages {
      assert ItemOk(g, batch[b], lanes, m);
    }
    BatchStays(g, batch, lanes, m, m');
  }

  lemma MapKeepsMap(slots: seq<Slot>, m: Machine, v: nat, page: nat, slots': seq<Slot>, pages': map<nat, Mapping>)
    requires MapOk(slots, m) && v < |slots| && !slots[v].mapped && page !in m.pages
    requires |slots'| == |slots| && slots'[v].page == page && slots'[v].mapped
    requires forall i :: 0 <= i < |slots| && i != v ==> slots'[i] == slots[i]
    requires pages' == m.pages[page := Mapping(v, NoAccess)]
    ensures MapOk(slots', m.(pages := pages'))
  {
    forall q | q in pages' ensures Holds(slots', pages'[q].handle, q) {
      assert q != page ==> Holds(slots, m.pages[q].handle, q);
    }
  }

  lemma AccessStep(g: Geometry, p: Pool, lanes: seq<Lane>, m: Machine, batch: seq<Item>,
                   loaded: set<nat>, except: set<nat>, open: set<nat>, page: nat)
    requires Loading(g, p, lanes, m, batch, loaded, except, open)
    requires page in m.pages && page in except
    ensures Loading(g, p, lanes, SetAccess(m, page, ReadWrite), batch, loaded + {page}, except, open)
  {
    SetAccessKeepsClean(m, page, ReadWrite);
    var m' := SetAccess(m, page, ReadWrite);
    forall b | 0 <= b < |batch| ensures ItemOk(g, batch[b], lanes, m') {
      assert ItemOk(g, batch[b], lanes, m);
      UploadingSame(m, m', batch[b].lane);
    }
  }

  lemma BatchPagesAppend(batch: seq<Item>, item: Item)
    ensures BatchPages(batch + [item]) == BatchPages(batch) + {item.page}
  {
    var longer := batch + [item];
    assert forall b :: 0 <= b < |longer| ==> longer[b] == if b < |batch| then batch[b] else item;
    assert longer[|batch|].page in BatchPages(longer);
    forall q | q in BatchPages(batch) ensures q in BatchPages(longer) {
      var b :| 0 <= b < |batch| && batch[b].page == q;
      assert longer[b].page == q;
    }
  }

  lemma BatchPagesSplit(batch: seq<Item>)
    requires batch != []
    ensures BatchPages(batch) == {batch[0].page} + BatchPages(batch[1..])
  {
    assert forall b :: 0 <= b < |batch| ==> batch[b] == if b == 0 then batch[0] else batch[1..][b - 1];
    forall q | q in BatchPages(batch[1..]) ensures q in BatchPages(batch) {
      var b :| 0 <= b < |batch[1..]| && batch[1..][b].page == q;
      assert batch[b + 1].page == q;
    }
  }

  /** A free lane is not in the batch, so no read is using its buffer. */
  lemma FreeLaneIsIdle(g: Geometry, batch: seq<Item>, lanes: seq<Lane>, m: Machine, l: nat)
    requires g.Valid() && Shaped(m) && |lanes| == |m.reading| && BatchOk(g, batch, lanes, m)
    requires l < |lanes| && !Busy(batch, l)
    ensures m.reading[l].Idle?
  {
  }

  /** Once a lane's event has passed, no upload from the lane is still queued. */
  lemma SignalPassed(m: Machine, loaded: set<nat>, l: nat)
    requires QueueOk(m, loaded, {}) && Signal(l) !in m.queue
    ensures !Uploading(m, l)
  {
  }

  lemma AppendItem(g: Geometry, batch: seq<Item>, lanes: seq<Lane>, m: Machine, item: Item)
    requires g.Valid() && Shaped(m) && |lanes| == |m.reading|
    requires forall b :: 0 <= b < |batch| ==> ItemOk(g, batch[b], lanes, m)
    requires forall a, b :: 0 <= a < b < |batch| ==> batch[a].lane != batch[b].lane && batch[a].page != batch[b].page
    requires forall l :: 0 <= l < |lanes| && m.reading[l].InFlight? ==> Busy(batch, l) || l == item.lane
    requires ItemOk(g, item, lanes, m) && !Busy(batch, item.lane) && item.page !in BatchPages(batch)
    ensures BatchOk(g, batch + [item], lanes, m)
  {
    var longer := batch + [item];
    assert longer[|batch|] == item;
    forall a, b | 0 <= a < b < |longer| ensures longer[a].lane != longer[b].lane && longer[a].page != longer[b].page {
      if b == |batch| {
        assert longer[a] == batch[a] && batch[a].page in BatchPages(batch);
      }
    }
    forall l | 0 <= l < |lanes| && m.reading[l].InFlight? ensures Busy(longer, l) {
      if l != item.lane {
        var b :| 0 <= b < |batch| && batch[b].lane == l;
        assert longer[b].lane == l;
      }
    }
  }

  /** A page found in the host cache joins the batch without a read. */
  lemma HostHitStep(g: Geometry, p: Pool, lanes: seq<Lane>, lanes': seq<Lane>, m: Machine, batch: seq<Item>,
                    loaded: set<nat>, except: set<nat>, l: nat, page: nat)
    requires Loading(g, p, lanes, m, batch, loaded, except, {})
    requires l < |lanes| && lanes[l].page == page && page != NO_PAGE
    requires page in m.pages && page in except * loaded && page !in BatchPages(batch)
    requires Signal(l) !in m.queue
    requires lanes' == lanes[l := lanes[l].(used := p.clock + 1)]
    ensures Loading(g, p.(clock := p.clock + 1), lanes', m, batch + [Item(page, l, false)], loaded, except, {})
  {
    assert !Busy(batch, l) by {
      forall b | 0 <= b < |batch| ensures batch[b].lane != l {
        assert ItemOk(g, batch[b], lanes, m) && batch[b].page in BatchPages(batch);
      }
    }
    SignalPassed(m, loaded, l);
    forall b | 0 <= b < |batch| ensures ItemOk(g, batch[b], lanes', m) {
      assert ItemOk(g, batch[b], lanes, m);
    }
    assert LaneOk(g, lanes[l], m.reading[l], m.host[l]);
    AppendItem(g, batch, lanes', m, Item(page, l, false));
    BatchPagesAppend(batch, Item(page, l, false));
  }

  /** A read into a free lane joins the batch. */
  lemma StartReadStep(g: Geometry, p: Pool, lanes: seq<Lane>, lanes': seq<Lane>, m: Machine, batch: seq<Item>,
                      loaded: set<nat>, except: set<nat>, l: nat, page: nat)
    requires Loading(g, p, lanes, m, batch, loaded, except, {})
    requires l < |lanes| && !Busy(batch, l) && Signal(l) !in m.queue
    requires page in m.pages && g.Has(page) && page in except * loaded && page !in BatchPages(batch)
    requires lanes' == lanes[l := Lane(NO_PAGE, p.clock + 1, g.Bytes(page), true)]
    ensures m.reading[l].Idle? && !Uploading(m, l)
    ensures Loading(g, p.(clock := p.clock + 1), lanes', StartRead(m, l, g.Offset(page), g.Bytes(page)),
                    batch + [Item(page, l, true)], loaded, except, {})
  {
    FreeLaneIsIdle(g, batch, lanes, m, l);
    SignalPassed(m, loaded, l);
    var m' := StartRead(m, l, g.Offset(page), g.Bytes(page));
    forall b | 0 <= b < |batch| ensures ItemOk(g, batch[b], lanes', m') {
      assert ItemOk(g, batch[b], lanes, m) && Busy(batch, batch[b].lane);
      UploadingSame(m, m', batch[b].lane);
    }
    UploadingSame(m, m', l);
    forall i | 0 <= i < |lanes'| ensures LaneOk(g, lanes'[i], m'.reading[i], m'.host[i]) {
      assert LaneOk(g, lanes[i], m.reading[i], m.host[i]);
    }
    AppendItem(g, batch, lanes', m', Item(page, l, true));
    BatchPagesAppend(batch, Item(page, l, true));
  }

  lemma EndReadBatch(g: Geometry, batch: seq<Item>, lanes: seq<Lane>, m: Machine, lanes': seq<Lane>, m': Machine)
    requires g.Valid() && Shaped(m) && Shaped(m') && |lanes| == |lanes'| == |m.reading| == |m'.reading|
    requires BatchOk(g, batch, lanes, m) && batch != []
    requires lanes' == lanes[batch[0].lane := lanes[batch[0].lane].(page := batch[0].page, pending := false)]
    requires m'.pages == m.pages && m'.queue == m.queue && m'.reading == m.reading[batch[0].lane := Idle]
    ensures BatchOk(g, [batch[0].(read := false)] + batch[1..], lanes', m')
    ensures BatchPages([batch[0].(read := false)] + batch[1..]) == BatchPages(batch)
  {
    var batch' := [batch[0].(read := false)] + batch[1..];
    forall b | 0 <= b < |batch'|
      ensures ItemOk(g, batch'[b], lanes', m') && batch'[b].lane == batch[b].lane && batch'[b].page == batch[b].page
    {
      assert ItemOk(g, batch[b], lanes, m);
      UploadingSame(m, m', batch[b].lane);
    }
    forall i | 0 <= i < |lanes'| && m'.reading[i].InFlight? ensures Busy(batch', i) {
      var b :| 0 <= b < |batch| && batch[b].lane == i;
      assert batch'[b].lane == i;
    }
  }

  /** A read that completed in full leaves the page in its lane. */
  lemma EndReadStep(g: Geometry, p: Pool, lanes: seq<Lane>, lanes': seq<Lane>, m: Machine, batch: seq<Item>,
                    loaded: set<nat>, except: set<nat>, bytes: seq<Byte>)
    requires Loading(g, p, lanes, m, batch, loaded, except, {})
    requires batch != [] && batch[0].read && ItemOk(g, batch[0], lanes, m)
    requires |bytes| == m.chunk && bytes[..g.Bytes(batch[0].page)] == g.Content(batch[0].page)
    requires lanes' == lanes[batch[0].lane := lanes[batch[0].lane].(page := batch[0].page, pending := false)]
    ensures Loading(g, p, lanes', EndRead(m, batch[0].lane, bytes), [batch[0].(read := false)] + batch[1..], loaded, except, {})
  {
    var l := batch[0].lane;
    var m' := EndRead(m, l, bytes);
    EndReadBatch(g, batch, lanes, m, lanes', m');
    forall i | 0 <= i < |lanes'| ensures LaneOk(g, lanes'[i], m'.reading[i], m'.host[i]) {
      assert LaneOk(g, lanes[i], m.reading[i], m.host[i]);
    }
  }

  // ----- One upload: copy, clear the padding, record the event -----

  lemma BatchTail(g: Geometry, batch: seq<Item>, lanes: seq<Lane>, m: Machine, m': Machine)
    requires g.Valid() && Shaped(m) && Shaped(m') && |lanes| == |m.reading|
    requires BatchOk(g, batch, lanes, m) && batch != [] && !batch[0].read && m.reading[batch[0].lane].Idle?
    requires m'.pages == m.pages && m'.reading == m.reading
    requires forall l :: Uploading(m', l) ==> Uploading(m, l) || l == batch[0].lane
    ensures BatchOk(g, batch[1..], lanes, m')
    ensures BatchPages(batch) == BatchPages(batch[1..]) + {batch[0].page} && batch[0].page !in BatchPages(batch[1..])
  {
    var tail := batch[1..];
    forall b | 0 <= b < |tail| ensures ItemOk(g, tail[b], lanes, m') {
      assert tail[b] == batch[b + 1];
      assert ItemOk(g, batch[b + 1], lanes, m) && batch[0].lane != batch[b + 1].lane;
    }
    forall l | 0 <= l < |lanes| && m'.reading[l].InFlight? ensures Busy(tail, l) {
      var b :| 0 <= b < |batch| && batch[b].lane == l;
      assert tail[b - 1].lane == l;
    }
    forall q | q in BatchPages(batch) ensures q in BatchPages(tail) + {batch[0].page} {
      var b :| 0 <= b < |batch| && batch[b].page == q;
      assert b > 0 ==> tail[b - 1].page == q;
    }
  }

  lemma UploadingAfter(m: Machine, op: Op, l: nat)
    requires Clean(m) && Ready(m, op) && Uploading(Enqueue(m, op), l)
    ensures Uploading(m, l) || (op.Copy? && op.lane == l)
  {
    var m' := Enqueue(m, op);
    var i :| 0 <= i < |m'.queue| && m'.queue[i].Copy? && m'.queue[i].lane == l;
    assert i < |m.queue| ==> m'.queue[i] == m.queue[i];
  }

  /** Appending an upload or a clear on a page of the request keeps the queue in order. */
  lemma QueueAppend(m: Machine, op: Op, loaded: set<nat>, open: set<nat>)
    requires Clean(m) && Ready(m, op) && QueueOk(m, loaded, open)
    requires match op
             case Copy(page, lane, _) => page in loaded && lane in open
             case Clear(page, _) => page in loaded
             case Signal(_) => true
             case _ => false
    ensures QueueOk(Enqueue(m, op), loaded, if op.Signal? then open - {op.lane} else open)
  {
    var m' := Enqueue(m, op);
    forall i | 0 <= i < |m'.queue| && m'.queue[i].Copy?
      ensures Signalled(m'.queue, i) || (m'.queue[i].lane in open && !(op == Signal(m'.queue[i].lane)))
    {
      if i < |m.queue| {
        assert m'.queue[i] == m.queue[i];
        if Signalled(m.queue, i) {
          var j :| i < j < |m.queue| && m.queue[j] == Signal(m.queue[i].lane);
          assert m'.queue[j] == m.queue[j];
        } else {
          assert op.Signal? ==> m'.queue[|m.queue|] == op;
        }
      }
    }
    assert forall i :: 0 <= i < |m'.queue| ==> m'.queue[i] == if i < |m.queue| then m.queue[i] else op;
  }

  /** The chunk behind a page, once the stream drains. */
  function Chunk(m: Machine, page: nat): seq<Byte>
    requires Shaped(m) && page in m.pages
  {
    Final(m)[m.pages[page].handle]
  }

  lemma CopyEffect(m: Machine, page: nat, lane: nat, count: nat)
    requires Clean(m) && Ready(m, Copy(page, lane, count))
    ensures |Chunk(m, page)| == m.chunk
    ensures Chunk(Enqueue(m, Copy(page, lane, count)), page) == m.host[lane][..count] + Chunk(m, page)[count..]
    ensures forall i :: 0 <= i < |m.vram| && i != m.pages[page].handle ==> Final(Enqueue(m, Copy(page, lane, count)))[i] == Final(m)[i]
  {
    SettleShape(m.vram, m.queue, m.host, m.pages, m.chunk);
    EnqueueSettles(m, Copy(page, lane, count));
  }

  lemma ClearEffect(m: Machine, page: nat, start: nat)
    requires Clean(m) && Ready(m, Clear(page, start))
    ensures |Chunk(m, page)| == m.chunk
    ensures Chunk(Enqueue(m, Clear(page, start)), page) == Chunk(m, page)[..start] + Zeros(m.chunk - start)
    ensures forall i :: 0 <= i < |m.vram| && i != m.pages[page].handle ==> Final(Enqueue(m, Clear(page, start)))[i] == Final(m)[i]
  {
    SettleShape(m.vram, m.queue, m.host, m.pages, m.chunk);
    EnqueueSettles(m, Clear(page, start));
  }

  /** Writes to an excepted page leave the content of all others alone. */
  lemma ContentElsewhere(g: Geometry, slots: seq<Slot>, m: Machine, m': Machine, except: set<nat>, page: nat)
    requires g.Valid() && PagesReal(g, slots) && Shaped(m) && MapOk(slots, m) && ContentOk(g, slots, m, except)
    requires page in m.pages && page in except && m'.pages == m.pages && |m'.vram| == |m.vram|
    requires forall i :: 0 <= i < |m.vram| && i != m.pages[page].handle ==> Final(m')[i] == Final(m)[i]
    ensures ContentOk(g, slots, m', except)
  {
    assert Holds(slots, m.pages[page].handle, page);
  }

  /** What the head of the batch needs for its upload is in place. */
  lemma HeadReady(g: Geometry, p: Pool, lanes: seq<Lane>, m: Machine, batch: seq<Item>, loaded: set<nat>, except: set<nat>)
    requires Loading(g, p, lanes, m, batch, loaded, except, {})
    requires batch != [] && !batch[0].read
    ensures ItemOk(g, batch[0], lanes, m)
    ensures Ready(m, Copy(batch[0].page, batch[0].lane, lanes[batch[0].lane].wanted))
    ensures batch[0].page in except * loaded
    ensures lanes[batch[0].lane].wanted == g.Bytes(batch[0].page) <= m.chunk
    ensures m.host[batch[0].lane][..g.Bytes(batch[0].page)] == g.Content(batch[0].page)
  {
    var page, l := batch[0].page, batch[0].lane;
    assert ItemOk(g, batch[0], lanes, m);
    assert LaneOk(g, lanes[l], m.reading[l], m.host[l]);
    g.RealPageIsNotMarker(page);
    assert page in BatchPages(batch);
  }

  lemma CopyQueue(m: Machine, op: Op, loaded: set<nat>)
    requires Clean(m) && op.Copy? && Ready(m, op) && QueueOk(m, loaded, {}) && op.page in loaded
    ensures QueueOk(Enqueue(m, op), loaded, {op.lane})
  {
    QueueWiden(m, loaded, {}, {op.lane});
    QueueAppend(m, op, loaded, {op.lane});
  }

  /** Queue the upload of the head of the batch; its lane stays open until its event is recorded. */
  lemma CopyStep(g: Geometry, p: Pool, lanes: seq<Lane>, m: Machine, batch: seq<Item>,
                 loaded: set<nat>, except: set<nat>, op: Op)
    requires Loading(g, p, lanes, m, batch, loaded, except, {})
    requires batch != [] && !batch[0].read && ItemOk(g, batch[0], lanes, m) && Ready(m, op)
    requires op == Copy(batch[0].page, batch[0].lane, lanes[batch[0].lane].wanted)
    ensures Loading(g, p, lanes, Enqueue(m, op), batch[1..], loaded, except, {batch[0].lane})
    ensures batch[0].page !in BatchPages(batch[1..])
  {
    HeadReady(g, p, lanes, m, batch, loaded, except);
    CopyEffect(m, op.page, op.lane, op.count);
    var m' := Enqueue(m, op);
    forall i | Uploading(m', i) ensures Uploading(m, i) || i == op.lane {
      UploadingAfter(m, op, i);
    }
    CopyQueue(m, op, loaded);
    BatchTail(g, batch, lanes, m, m');
    ContentElsewhere(g, p.slots, m, m', except, op.page);
  }

  lemma CopyContent(g: Geometry, p: Pool, lanes: seq<Lane>, m: Machine, batch: seq<Item>,
                    loaded: set<nat>, except: set<nat>, op: Op)
    requires Loading(g, p, lanes, m, batch, loaded, except, {})
    requires batch != [] && !batch[0].read && ItemOk(g, batch[0], lanes, m) && Ready(m, op)
    requires op == Copy(batch[0].page, batch[0].lane, lanes[batch[0].lane].wanted)
    ensures |Chunk(Enqueue(m, op), batch[0].page)| == g.chunk
    ensures Chunk(Enqueue(m, op), batch[0].page)[..g.Bytes(batch[0].page)] == g.Content(batch[0].page)
  {
    HeadReady(g, p, lanes, m, batch, loaded, except);
    CopyEffect(m, op.page, op.lane, op.count);
  }

  lemma QueueWiden(m: Machine, loaded: set<nat>, open: set<nat>, open': set<nat>)
    requires QueueOk(m, loaded, open) && open <= open'
    ensures QueueOk(m, loaded, open')
  {
  }

  lemma BatchSame(g: Geometry, batch: seq<Item>, lanes: seq<Lane>, m: Machine, m': Machine)
    requires g.Valid() && Shaped(m) && Shaped(m') && |lanes| == |m.reading|
    requires BatchOk(g, batch, lanes, m)
    requires m'.pages == m.pages && m'.reading == m.reading
    requires forall l :: Uploading(m', l) ==> Uploading(m, l)
    ensures BatchOk(g, batch, lanes, m')
  {
    forall b | 0 <= b < |batch| ensures ItemOk(g, batch[b], lanes, m') {
      assert ItemOk(g, batch[b], lanes, m);
    }
  }

  /** Queue the clearing of the padding of the final page. */
  lemma ClearStep(g: Geometry, p: Pool, lanes: seq<Lane>, m: Machine, batch: seq<Item>,
                  loaded: set<nat>, except: set<nat>, open: set<nat>, page: nat)
    requires Loading(g, p, lanes, m, batch, loaded, except, open)
    requires g.Has(page) && page in m.pages && page in except * loaded
    requires |Chunk(m, page)| == g.chunk && Chunk(m, page)[..g.Bytes(page)] == g.Content(page)
    ensures Ready(m, Clear(page, g.Bytes(page)))
    ensures Loading(g, p, lanes, Enqueue(m, Clear(page, g.Bytes(page))), batch, loaded, except, open)
    ensures Chunk(Enqueue(m, Clear(page, g.Bytes(page))), page) == g.Image(page)
  {
    var op := Clear(page, g.Bytes(page));
    ClearEffect(m, page, g.Bytes(page));
    var m' := Enqueue(m, op);
    forall i | Uploading(m', i) ensures Uploading(m, i) {
      UploadingAfter(m, op, i);
    }
    QueueAppend(m, op, loaded, open);
    BatchSame(g, batch, lanes, m, m');
    ContentElsewhere(g, p.slots, m, m', except, page);
  }

  /** Record the lane's event: the page is on its way. */
  lemma SignalStep(g: Geometry, p: Pool, lanes: seq<Lane>, m: Machine, batch: seq<Item>,
                   loaded: set<nat>, except: set<nat>, l: nat, page: nat)
    requires Loading(g, p, lanes, m, batch, loaded, except, {l})
    requires l < |lanes| && g.Has(page) && page in m.pages && page in loaded && page !in BatchPages(batch)
    requires Chunk(m, page) == g.Image(page)
    ensures Loading(g, p, lanes, Enqueue(m, Signal(l)), batch, loaded, except - {page}, {})
  {
    var m' := Enqueue(m, Signal(l));
    EnqueueSettles(m, Signal(l));
    forall i | Uploading(m', i) ensures Uploading(m, i) {
      UploadingAfter(m, Signal(l), i);
    }
    QueueAppend(m, Signal(l), loaded, {l});
    BatchSame(g, batch, lanes, m, m');
    forall i | 0 <= i < |p.slots| && p.slots[i].mapped && p.slots[i].page !in except - {page}
      ensures Final(m')[i] == g.Image(p.slots[i].page)
    {
    }
  }

  // ----- The host cache -----

  predicate Cached(lanes: seq<Lane>, page: nat) {
    exists k :: 0 <= k < |lanes| && lanes[k].page == page
  }

  lemma CacheHit(lanes: seq<Lane>, lanes': seq<Lane>, batch: seq<Item>, l: nat, used: nat, page: nat)
    requires CacheOk(lanes, batch) && l < |lanes| && lanes' == lanes[l := lanes[l].(used := used)]
    ensures CacheOk(lanes', batch + [Item(page, l, false)])
  {
  }

  lemma CacheMiss(lanes: seq<Lane>, lanes': seq<Lane>, batch: seq<Item>, l: nat, lane: Lane, page: nat)
    requires CacheOk(lanes, batch) && l < |lanes| && lane.page == NO_PAGE && lanes' == lanes[l := lane]
    requires page != NO_PAGE && !Cached(lanes, page)
    requires forall b :: 0 <= b < |batch| && batch[b].read ==> batch[b].page != NO_PAGE
    ensures CacheOk(lanes', batch + [Item(page, l, true)])
  {
  }

  lemma CacheFilled(lanes: seq<Lane>, lanes': seq<Lane>, batch: seq<Item>)
    requires batch != [] && batch[0].read && batch[0].lane < |lanes|
    requires lanes' == lanes[batch[0].lane := lanes[batch[0].lane].(page := batch[0].page, pending := false)]
    requires CacheOk(lanes, batch)
    requires forall a, b :: 0 <= a < b < |batch| ==> batch[a].page != batch[b].page
    ensures CacheOk(lanes', [batch[0].(read := false)] + batch[1..])
  {
    var batch' := [batch[0].(read := false)] + batch[1..];
    forall b, l | 0 <= b < |batch'| && batch'[b].read && 0 <= l < |lanes'| ensures lanes'[l].page != batch'[b].page {
      assert batch'[b] == batch[b] && b > 0;
    }
  }

  // ----- Between requests -----

  /** Consumers may be queued, but nothing that writes device memory. */
  predicate Quiet(queue: seq<Op>) {
    forall i :: 0 <= i < |queue| ==> !queue[i].Copy? && !queue[i].Clear?
  }

  predicate AllIdle(m: Machine) {
    forall l :: 0 <= l < |m.reading| ==> m.reading[l].Idle?
  }

  predicate ContentNow(g: Geometry, slots: seq<Slot>, m: Machine)
    requires g.Valid() && PagesReal(g, slots) && |m.vram| == |slots|
  {
    forall i :: 0 <= i < |slots| && slots[i].mapped ==> m.vram[i] == g.Image(slots[i].page)
  }

  /** Every mapped page holds its part of the file, read-only, and nothing is about to change that. */
  predicate AtRest(g: Geometry, p: Pool, lanes: seq<Lane>, m: Machine) {
    match p
    case Pool(slots, _) =>
      && g.Valid() && Clean(m) && m.chunk == g.chunk
      && PoolOk(p) && PagesReal(g, slots) && MapOk(slots, m)
      && LanesOk(g, lanes, m) && AllIdle(m)
      && AccessOk(m, {}, {}) && Quiet(m.queue) && ContentNow(g, slots, m)
  }

  lemma {:induction false} SettleQuiet(vram: seq<seq<Byte>>, ops: seq<Op>, host: seq<seq<Byte>>, pages: map<nat, Mapping>)
    requires Quiet(ops)
    ensures Settle(vram, ops, host, pages) == vram
    decreases |ops|
  {
    if ops != [] {
      SettleQuiet(Effect(vram, ops[0], host, pages), ops[1..], host, pages);
    }
  }

  /** However long the consumers take, they read the file: device memory does not change at rest. */
  lemma RestLater(g: Geometry, p: Pool, lanes: seq<Lane>, m: Machine, m': Machine)
    requires AtRest(g, p, lanes, m) && Later(m, m')
    ensures AtRest(g, p, lanes, m') && m'.vram == m.vram
  {
    assert Quiet(m'.queue) by {
      assert forall i :: 0 <= i < |m'.queue| ==> m'.queue[i] == m.queue[|m.queue| - |m'.queue| + i];
    }
    SettleQuiet(m.vram, m.queue, m.host, m.pages);
    SettleQuiet(m'.vram, m'.queue, m'.host, m'.pages);
    forall l | 0 <= l < |lanes| ensures LaneOk(g, lanes[l], m'.reading[l], m'.host[l]) {
      assert LaneOk(g, lanes[l], m.reading[l], m.host[l]);
    }
  }

  lemma RestToLoading(g: Geometry, p: Pool, lanes: seq<Lane>, m: Machine)
    requires AtRest(g, p, lanes, m) && m.queue == []
    ensures Loading(g, p, lanes, m, [], {}, {}, {})
  {
  }

  lemma LoadingToRest(g: Geometry, p: Pool, lanes: seq<Lane>, m: Machine)
    requires Loading(g, p, lanes, m, [], {}, {}, {}) && m.queue == []
    ensures AtRest(g, p, lanes, m)
  {
    assert forall l: nat :: !Busy([], l);
  }

  /** Withdraw write access to a page, once everything has been uploaded. */
  lemma SealStep(g: Geometry, p: Pool, lanes: seq<Lane>, m: Machine, loaded: set<nat>, page: nat)
    requires Loading(g, p, lanes, m, [], loaded, {}, {}) && m.queue == [] && page in m.pages
    ensures Loading(g, p, lanes, SetAccess(m, page, ReadOnly), [], loaded - {page}, {}, {})
  {
    SetAccessKeepsClean(m, page, ReadOnly);
    var m' := SetAccess(m, page, ReadOnly);
    assert BatchPages([]) == {};
    assert MapOk(p.slots, m') by {
      forall q | q in m'.pages ensures Holds(p.slots, m'.pages[q].handle, q) {
        assert Holds(p.slots, m.pages[q].handle, q);
      }
    }
  }

  /** A hit changes only a time stamp. */
  lemma HitAtRest(g: Geometry, p: Pool, lanes: seq<Lane>, m: Machine, page: nat)
    requires AtRest(g, p, lanes, m)
    ensures AtRest(g, Hit(p, page), lanes, m)
  {
    HitKeeps(p, page);
    var p' := Hit(p, page);
    assert forall i :: 0 <= i < |p.slots| ==> p'.slots[i].page == p.slots[i].page && p'.slots[i].mapped == p.slots[i].mapped;
    assert MapOk(p'.slots, m) by {
      forall q | q in m.pages ensures Holds(p'.slots, m.pages[q].handle, q) {
        assert Holds(p.slots, m.pages[q].handle, q);
      }
    }
  }

  /** Submitting a consumer, here or elsewhere, disturbs nothing. */
  lemma ConsumerAtRest(g: Geometry, p: Pool, lanes: seq<Lane>, m: Machine, m': Machine)
    requires AtRest(g, p, lanes, m) && Clean(m')
    requires m'.chunk == m.chunk && m'.vram == m.vram && m'.pages == m.pages && m'.host == m.host && m'.reading == m.reading
    requires |m'.queue| >= |m.queue| && m'.queue[..|m.queue|] == m.queue && Quiet(m'.queue[|m.queue|..])
    ensures AtRest(g, p, lanes, m')
  {
    assert forall i :: 0 <= i < |m'.queue| ==>
      m'.queue[i] == if i < |m.queue| then m'.queue[..|m.queue|][i] else m'.queue[|m.queue|..][i - |m.queue|];
  }

  // ----- What a consumer reads -----

  /** Address `base + a` is mapped and reads as byte `a` of the file. */
  predicate ReadsByte(g: Geometry, m: Machine, a: nat)
    requires g.Valid() && Shaped(m)
  {
    && a < |g.file| && a / g.chunk in m.pages && m.pages[a / g.chunk].access == ReadOnly
    && a % g.chunk < m.chunk
    && m.vram[m.pages[a / g.chunk].handle][a % g.chunk] == g.file[a]
  }

  /** The page is mapped read-only; past the end of the file it reads as zeros. */
  predicate ReadsPadding(g: Geometry, m: Machine, page: nat)
    requires g.Valid() && Shaped(m)
  {
    && g.Has(page) && page in m.pages && m.pages[page].access == ReadOnly
    && forall k :: g.Bytes(page) <= k < m.chunk ==> m.vram[m.pages[page].handle][k] == 0
  }

  lemma ResidentReads(g: Geometry, p: Pool, lanes: seq<Lane>, m: Machine, page: nat)
    requires AtRest(g, p, lanes, m) && Resident(p.slots, page)
    ensures page in m.pages && m.pages[page].access == ReadOnly && m.vram[m.pages[page].handle] == g.Image(page)
    ensures ReadsPadding(g, m, page)
  {
    var i: nat :| Holds(p.slots, i, page);
    assert g.Image(page) == m.vram[i];
    forall k | g.Bytes(page) <= k < m.chunk ensures m.vram[i][k] == 0 {
      g.PaddingIsZero(page, k);
    }
  }

  lemma ResidentByteReads(g: Geometry, p: Pool, lanes: seq<Lane>, m: Machine, a: nat)
    requires AtRest(g, p, lanes, m) && a < |g.file| && Resident(p.slots, a / g.chunk)
    ensures ReadsByte(g, m, a)
  {
    ResidentReads(g, p, lanes, m, a / g.chunk);
    g.ByteInImage(a);
  }
}
