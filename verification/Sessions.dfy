/** Whole runs of a file tensor: any sequence of calls, any timing, any failures. */
module Sessions {
  import opened Pages
  import opened Machines
  import opened Residency
  import opened Requests
  import opened Staging
  import opened HostCache
  import opened FileTensors

  /** What can happen to a tensor: its two operations, consumers submitted on its own stream or on
    * another, and time passing. */
  datatype Call =
    | Acquire(spans: seq<Span>, owner: bool)
    | RecordUse(stream: nat, owner: bool)
    | Launch(pages: set<nat>)
    | LaunchElsewhere(job: nat, stream: nat, pages: set<nat>)
    | Wait

  /** A consumer of pages that are not resident is an error of the client, and not submitted here. */
  datatype Reply = Returned(outcome: Outcome) | Passed | Misused

  const BROKEN := Returned(Failed(DriverFailure))

  /** What the calls decide: everything but the progress of work already submitted. */
  datatype Snapshot = Snapshot(slots: seq<Slot>, lanes: seq<Lane>, clock: nat, counters: Stats, pages: map<nat, Mapping>)

  function Take(t: FileTensor): Snapshot
    reads t
  {
    Snapshot(t.slots, t.lanes, t.clock, t.counters, t.hw.pages)
  }

  /** The records of the specification. */
  ghost function Logs(t: FileTensor): (seq<nat>, seq<nat>, nat)
    reads t
  {
    (t.loads, t.served, t.asked)
  }

  method Perform(t: FileTensor, call: Call) returns (reply: Reply)
    requires t.Valid()
    modifies t
    ensures t.Valid()
    ensures old(t.poisoned) ==> t.poisoned && reply != Returned(Done) && reply != BROKEN
    ensures reply == BROKEN <==> t.poisoned && !old(t.poisoned)
    ensures reply != Returned(Done) && reply != BROKEN ==> Take(t) == old(Take(t))
    ensures !call.Acquire? ==> Take(t) == old(Take(t)) && Logs(t) == old(Logs(t))
  {
    reply := Passed;
    match call {
      case Acquire(spans, owner) =>
        var r := t.AcquireMany(spans, owner);
        reply := Returned(r);
      case RecordUse(stream, owner) =>
        var r := t.RecordUse(stream, owner);
        reply := Returned(r);
      case Launch(pages) =>
        if pages <= t.hw.pages.Keys {
          t.Launch(pages);
        } else {
          reply := Misused;
        }
      case LaunchElsewhere(job, stream, pages) =>
        if job !in t.hw.jobs && pages <= t.hw.pages.Keys {
          t.LaunchElsewhere(job, stream, pages);
        } else {
          reply := Misused;
        }
      case Wait => t.Wait();
    }
  }

  /** Anything but a request, any number of times. */
  method Meanwhile(t: FileTensor) returns (ok: bool)
    requires t.Valid() && !t.poisoned
    modifies t
    ensures t.Valid() && (ok <==> !t.poisoned)
    ensures Take(t) == old(Take(t)) && Logs(t) == old(Logs(t))
  {
    var calls: seq<Call> :| true;
    for k := 0 to |calls|
      invariant t.Valid() && Take(t) == old(Take(t)) && Logs(t) == old(Logs(t))
    {
      if !calls[k].Acquire? {
        var reply := Perform(t, calls[k]);
      }
    }
    ok := !t.poisoned;
  }

  /** The replies of a run and the states around its calls. A call refused for its arguments leaves
    * everything as it was, and so do consumers and time. The first failure is the last thing that
    * happens: every later operation is refused, and no slot, no lane, no mapping and no counter
    * changes again. */
  ghost predicate Absorbing(log: seq<Reply>, states: seq<Snapshot>) {
    && |states| == |log| + 1
    && (forall i :: 0 <= i < |log| && log[i] != Returned(Done) && log[i] != BROKEN ==> states[i + 1] == states[i])
    && (forall i, j :: 0 <= i < j < |log| && log[i] == BROKEN ==>
          log[j] != Returned(Done) && log[j] != BROKEN && states[j + 1] == states[i + 1])
  }

  lemma OneMoreCall(log: seq<Reply>, states: seq<Snapshot>, r: Reply, after: Snapshot)
    requires Absorbing(log, states)
    requires BROKEN in log ==> r != Returned(Done) && r != BROKEN
    requires r != Returned(Done) && r != BROKEN ==> after == states[|log|]
    ensures Absorbing(log + [r], states + [after])
    ensures BROKEN in log + [r] <==> BROKEN in log || r == BROKEN
  {
    var n, log', states' := |log|, log + [r], states + [after];
    assert log'[n] == r && states'[n + 1] == after;
    forall i | 0 <= i < n && log[i] == BROKEN ensures states'[n + 1] == states'[i + 1] {
      assert i < n - 1 ==> log[n - 1] != BROKEN && states[n] == states[i + 1];
    }
  }

  /** Any sequence of calls, from any state without a failure. As long as nothing failed, the
    * counters add up and every resident page is there to be read. */
  method Session(t: FileTensor, calls: seq<Call>) returns (log: seq<Reply>, ghost states: seq<Snapshot>)
    requires t.Valid() && !t.poisoned
    modifies t
    ensures t.Valid() && |log| == |calls| && Absorbing(log, states)
    ensures states[0] == old(Take(t)) && states[|calls|] == Take(t)
    ensures t.poisoned <==> BROKEN in log
    ensures !t.poisoned ==>
              && t.counters.misses - t.counters.evictions == Mapped(t.slots) <= |t.slots|
              && t.counters.hits + t.counters.misses == t.asked
              && t.counters.uploadedBytes - t.counters.fileBytes == Total(t.g, t.served)
              && t.counters.uploadedBytes == Total(t.g, t.loads)
              && SameSizes(t.counters, t.sizes)
    // What the host cache served is decided by the order of the loads alone.
    ensures !t.poisoned ==>
              t.served == (if t.caching then HostHits(t.loads, t.buffers) else []) && t.counters.hostHits == |t.served|
    ensures !t.poisoned ==> forall page :: Resident(t.slots, page) ==>
              page in t.hw.pages && t.hw.pages[page].access == ReadOnly && t.hw.vram[t.hw.pages[page].handle] == t.g.Image(page)
  {
    log, states := [], [Take(t)];
    for k := 0 to |calls|
      invariant t.Valid() && |log| == k && Absorbing(log, states)
      invariant states[0] == old(Take(t)) && states[k] == Take(t)
      invariant t.poisoned <==> BROKEN in log
    {
      var r := Perform(t, calls[k]);
      OneMoreCall(log, states, r, Take(t));
      log, states := log + [r], states + [Take(t)];
    }
    if !t.poisoned {
      t.ResidentPagesRead();
      t.CacheHoldsRecent();
    }
  }

  /** Two tensors map the same pages into the same chunks, with the same bytes in them. */
  ghost predicate SameDevice(a: FileTensor, b: FileTensor)
    reads a, b
  {
    && a.hw.pages == b.hw.pages
    && |a.hw.vram| == |b.hw.vram|
    && forall page :: page in a.hw.pages && a.hw.pages[page].handle < |a.hw.vram| ==>
         a.hw.vram[a.hw.pages[page].handle] == b.hw.vram[a.hw.pages[page].handle]
  }

  lemma SameSlotsSameDevice(a: FileTensor, b: FileTensor)
    requires a.Valid() && b.Valid() && !a.poisoned && !b.poisoned
    requires a.g == b.g && a.slots == b.slots
    ensures SameDevice(a, b)
  {
    forall page | page in a.hw.pages || page in b.hw.pages
      ensures page in a.hw.pages && page in b.hw.pages && a.hw.pages[page] == b.hw.pages[page]
    {
      var i := if page in a.hw.pages then a.hw.pages[page].handle else b.hw.pages[page].handle;
      assert Holds(a.slots, i, page) && Holds(b.slots, i, page);
    }
    forall page | page in a.hw.pages ensures a.hw.vram[a.hw.pages[page].handle] == b.hw.vram[a.hw.pages[page].handle] {
      assert Holds(a.slots, a.hw.pages[page].handle, page);
    }
  }

  /** The same request on two tensors with the same slots, after whatever each has been used for. */
  method Both(a: FileTensor, b: FileTensor, spans: seq<Span>) returns (failed: bool, ghost loaded: seq<nat>)
    requires a != b && a.Valid() && b.Valid() && !a.poisoned && !b.poisoned
    requires a.g == b.g && a.slots == b.slots && a.clock == b.clock
    modifies a, b
    ensures !failed ==> a.Valid() && b.Valid() && !a.poisoned && !b.poisoned
    ensures !failed ==> a.slots == b.slots && a.clock == b.clock
    ensures !failed ==> a.loads == old(a.loads) + loaded && b.loads == old(b.loads) + loaded
  {
    loaded := [];
    var ok := Meanwhile(a);
    if !ok { return true, []; }
    ok := Meanwhile(b);
    if !ok { return true, []; }
    failed, loaded := RequestBoth(a, b, spans);
  }

  method RequestBoth(a: FileTensor, b: FileTensor, spans: seq<Span>) returns (failed: bool, ghost loaded: seq<nat>)
    requires a != b && a.Valid() && b.Valid() && !a.poisoned && !b.poisoned
    requires a.g == b.g && a.slots == b.slots && a.clock == b.clock
    modifies a, b
    ensures !failed ==> a.Valid() && b.Valid() && !a.poisoned && !b.poisoned
    ensures !failed ==> a.slots == b.slots && a.clock == b.clock
    ensures !failed ==> a.loads == old(a.loads) + loaded && b.loads == old(b.loads) + loaded
  {
    ghost var before := a.Mapping();
    assert before == b.Mapping();
    var ra := a.AcquireMany(spans, true);
    var rb := b.AcquireMany(spans, true);
    failed := ra == Failed(DriverFailure) || rb == Failed(DriverFailure);
    loaded := if ra.Done? then Missing(before.slots, Union(a.g, spans)) else [];
    assert !failed ==> a.Mapping() == b.Mapping();
  }

  lemma Appended(a: seq<nat>, b: seq<nat>, loaded: seq<nat>, more: seq<nat>, all: seq<nat>)
    requires all == loaded + more
    ensures a + loaded + more == a + all && b + loaded + more == b + all
  {
  }

  /** The same requests on both, one after the other. */
  method RunBoth(a: FileTensor, b: FileTensor, requests: seq<seq<Span>>) returns (failed: bool, ghost loaded: seq<nat>)
    requires a != b && a.Valid() && b.Valid() && !a.poisoned && !b.poisoned
    requires a.g == b.g && a.slots == b.slots && a.clock == b.clock
    modifies a, b
    ensures !failed ==> a.Valid() && b.Valid() && !a.poisoned && !b.poisoned
    ensures !failed ==> a.slots == b.slots && a.clock == b.clock
    ensures !failed ==> a.loads == old(a.loads) + loaded && b.loads == old(b.loads) + loaded
  {
    failed, loaded := false, [];
    for k := 0 to |requests|
      invariant a.Valid() && b.Valid() && !a.poisoned && !b.poisoned
      invariant a.slots == b.slots && a.clock == b.clock
      invariant a.loads == old(a.loads) + loaded && b.loads == old(b.loads) + loaded
    {
      ghost var more;
      failed, more := Both(a, b, requests[k]);
      if failed {
        return;
      }
      Appended(old(a.loads), old(b.loads), loaded, more, loaded + more);
      loaded := loaded + more;
    }
  }

  /** The host cache is transparent: whatever its size, whatever consumers use the two tensors, and
    * whatever the timing of the two runs, the same requests leave the same mappings and the same
    * device memory as long as no call fails, and miss on the same pages. */
  method SideBySide(a: FileTensor, b: FileTensor, requests: seq<seq<Span>>) returns (failed: bool, ghost loaded: seq<nat>)
    requires a != b && a.Valid() && b.Valid() && !a.poisoned && !b.poisoned
    requires a.g == b.g && a.slots == b.slots && a.clock == b.clock
    modifies a, b
    ensures !failed ==> a.Valid() && b.Valid() && !a.poisoned && !b.poisoned
    ensures !failed ==> a.slots == b.slots && a.clock == b.clock && SameDevice(a, b)
    ensures !failed ==> a.loads == old(a.loads) + loaded && b.loads == old(b.loads) + loaded
  {
    failed, loaded := RunBoth(a, b, requests);
    if !failed {
      SameSlotsSameDevice(a, b);
    }
  }

  /** What two tensors have read of their files after loading the same pages. */
  lemma ReadsCompare(a: FileTensor, b: FileTensor)
    requires a.Valid() && b.Valid() && !a.poisoned && !b.poisoned
    requires a.g == b.g && a.loads == b.loads && (a.caching ==> b.caching && a.buffers <= b.buffers)
    ensures a.counters.misses == b.counters.misses && a.counters.uploadedBytes == b.counters.uploadedBytes
    ensures a.counters.hostHits <= b.counters.hostHits && b.counters.fileBytes <= a.counters.fileBytes
    ensures a.caching == b.caching && a.buffers == b.buffers ==> a.counters.fileBytes == b.counters.fileBytes
  {
    a.CacheHoldsRecent();
    b.CacheHoldsRecent();
    if a.caching {
      MoreBuffersServeMore(a.g, a.loads, a.buffers, b.buffers);
    }
  }

  /** More pinned memory never costs a read: of two tensors with the same device budget and the same
    * past, the one with more buffers hits its host cache no less often on the same requests, reads no
    * more of the file, and uploads exactly as much. */
  method LargerHostCache(a: FileTensor, b: FileTensor, requests: seq<seq<Span>>) returns (failed: bool, ghost loaded: seq<nat>)
    requires a != b && a.Valid() && b.Valid() && !a.poisoned && !b.poisoned
    requires a.g == b.g && a.slots == b.slots && a.clock == b.clock && a.loads == b.loads
    requires a.caching ==> b.caching && a.buffers <= b.buffers
    modifies a, b
    ensures !failed ==> SameDevice(a, b) && a.loads == b.loads == old(a.loads) + loaded
    ensures !failed ==> a.counters.misses == b.counters.misses && a.counters.uploadedBytes == b.counters.uploadedBytes
    ensures !failed ==> a.counters.hostHits <= b.counters.hostHits && b.counters.fileBytes <= a.counters.fileBytes
  {
    failed, loaded := SideBySide(a, b, requests);
    if !failed {
      ReadsCompare(a, b);
    }
  }
}
