/** The CUDA and Win32 side of file residency, as an adversary.
  * Work that was submitted runs at an arbitrary later time: the stream is a FIFO of operations,
  * a copy reads its host buffer when it runs, a file read leaves its buffer arbitrary until it
  * completes, and jobs on other streams end whenever they like.
  */
module Machines {
  import opened Pages

  datatype Access = NoAccess | ReadOnly | ReadWrite

  /** A mapped page: the physical chunk behind it and the access it was given. */
  datatype Mapping = Mapping(handle: nat, access: Access)

  datatype FileRead = Idle | InFlight(offset: nat, wanted: nat)

  /** An operation queued on the tensor's own stream. */
  datatype Op =
    | Copy(page: nat, lane: nat, count: nat)  // upload the first bytes of a host buffer
    | Clear(page: nat, start: nat)            // zero the rest of the chunk
    | Signal(lane: nat)                       // record the lane's event
    | Kernel(pages: set<nat>)                 // a consumer
    | Await(jobs: set<nat>)                   // wait for work recorded on other streams

  /** A consumer on another stream; `fenced` once the tensor's stream was made to wait for it. */
  datatype Job = Job(stream: nat, pages: set<nat>, fenced: bool)

  datatype Machine = Machine(
    chunk: nat,
    vram: seq<seq<Byte>>,
    pages: map<nat, Mapping>,
    host: seq<seq<Byte>>,
    reading: seq<FileRead>,
    queue: seq<Op>,
    jobs: map<nat, Job>,
    faults: nat)  // driver calls that have failed, and file reads that have ended short

  predicate Chunks(blocks: seq<seq<Byte>>, chunk: nat) {
    forall i :: 0 <= i < |blocks| ==> |blocks[i]| == chunk
  }

  predicate Shaped(m: Machine) {
    && Chunks(m.vram, m.chunk)
    && Chunks(m.host, m.chunk)
    && |m.reading| == |m.host|
    && forall p :: p in m.pages ==> m.pages[p].handle < |m.vram|
  }

  /** The operation may run now or at any later time without a fault or a data race. */
  predicate Ready(m: Machine, op: Op) {
    match op
    case Copy(page, lane, count) =>
      && page in m.pages && m.pages[page].access == ReadWrite
      && lane < |m.reading| && m.reading[lane].Idle?
      && count <= m.chunk
    case Clear(page, start) =>
      && page in m.pages && m.pages[page].access == ReadWrite
      && start <= m.chunk
    case Signal(lane) => lane < |m.reading|
    case Kernel(pages) => pages <= m.pages.Keys
    case Await(jobs) => true
  }

  predicate Awaited(queue: seq<Op>, job: nat) {
    exists i :: 0 <= i < |queue| && queue[i].Await? && job in queue[i].jobs
  }

  /** Every job the stream was told to wait for, if still running, is waited for and has its pages. */
  predicate FencesHold(m: Machine) {
    forall j :: j in m.jobs && m.jobs[j].fenced ==> Awaited(m.queue, j) && m.jobs[j].pages <= m.pages.Keys
  }

  /** Nothing unfinished can go wrong: no unfinished work uses an unmapped page, and no
    * host buffer is both read by a queued upload and written by a file read. */
  predicate Clean(m: Machine) {
    && Shaped(m)
    && (forall i :: 0 <= i < |m.queue| ==> Ready(m, m.queue[i]))
    && FencesHold(m)
  }

  // ----- What queued operations will do -----

  /** The device memory after one operation; an operation that cannot run changes nothing. */
  function Effect(vram: seq<seq<Byte>>, op: Op, host: seq<seq<Byte>>, pages: map<nat, Mapping>): (after: seq<seq<Byte>>)
    ensures |after| == |vram|
  {
    if op.Copy? && op.page in pages && pages[op.page].handle < |vram| && op.lane < |host|
       && op.count <= |host[op.lane]| && op.count <= |vram[pages[op.page].handle]| then
      var h := pages[op.page].handle;
      vram[h := host[op.lane][..op.count] + vram[h][op.count..]]
    else if op.Clear? && op.page in pages && pages[op.page].handle < |vram| && op.start <= |vram[pages[op.page].handle]| then
      var h := pages[op.page].handle;
      vram[h := vram[h][..op.start] + Zeros(|vram[h]| - op.start)]
    else
      vram
  }

  /** The device memory once all operations have run, in order. */
  function Settle(vram: seq<seq<Byte>>, ops: seq<Op>, host: seq<seq<Byte>>, pages: map<nat, Mapping>): (after: seq<seq<Byte>>)
    ensures |after| == |vram|
    decreases |ops|
  {
    if ops == [] then vram else Settle(Effect(vram, ops[0], host, pages), ops[1..], host, pages)
  }

  /** The device memory once the stream has drained, if no more work is queued. */
  function Final(m: Machine): (after: seq<seq<Byte>>)
    ensures |after| == |m.vram|
  {
    Settle(m.vram, m.queue, m.host, m.pages)
  }

  lemma {:induction false} SettleShape(vram: seq<seq<Byte>>, ops: seq<Op>, host: seq<seq<Byte>>, pages: map<nat, Mapping>, chunk: nat)
    requires Chunks(vram, chunk)
    ensures Chunks(Settle(vram, ops, host, pages), chunk)
    decreases |ops|
  {
    if ops != [] {
      SettleShape(Effect(vram, ops[0], host, pages), ops[1..], host, pages, chunk);
    }
  }

  lemma {:induction false} SettleAppend(vram: seq<seq<Byte>>, ops: seq<Op>, op: Op, host: seq<seq<Byte>>, pages: map<nat, Mapping>)
    ensures Settle(vram, ops + [op], host, pages) == Effect(Settle(vram, ops, host, pages), op, host, pages)
    decreases |ops|
  {
    if ops == [] {
      assert (ops + [op])[1..] == [];
    } else {
      assert (ops + [op])[1..] == ops[1..] + [op];
      SettleAppend(Effect(vram, ops[0], host, pages), ops[1..], op, host, pages);
    }
  }

  /** The operation sees the same host bytes and the same mapping in both worlds. */
  predicate Agree(op: Op, host: seq<seq<Byte>>, pages: map<nat, Mapping>, host': seq<seq<Byte>>, pages': map<nat, Mapping>) {
    && (op.Copy? ==> |host| == |host'| && op.lane < |host| && host[op.lane] == host'[op.lane])
    && (op.Copy? || op.Clear? ==> op.page in pages && op.page in pages' && pages[op.page].handle == pages'[op.page].handle)
  }

  lemma {:induction false} SettleFrame(vram: seq<seq<Byte>>, ops: seq<Op>,
                                       host: seq<seq<Byte>>, pages: map<nat, Mapping>, host': seq<seq<Byte>>, pages': map<nat, Mapping>)
    requires forall i :: 0 <= i < |ops| ==> Agree(ops[i], host, pages, host', pages')
    ensures Settle(vram, ops, host, pages) == Settle(vram, ops, host', pages')
    decreases |ops|
  {
    if ops != [] {
      assert Agree(ops[0], host, pages, host', pages');
      SettleFrame(Effect(vram, ops[0], host, pages), ops[1..], host, pages, host', pages');
    }
  }

  // ----- Time passing -----

  /** `m'` may be what `m` has become after some time, with nothing submitted in between. */
  predicate Later(m: Machine, m': Machine) {
    && Clean(m')
    && m'.chunk == m.chunk && m'.pages == m.pages && m'.reading == m.reading
    && |m'.vram| == |m.vram| && |m'.host| == |m.host| == |m.reading|
    && (forall l :: 0 <= l < |m.host| && m.reading[l].Idle? ==> m'.host[l] == m.host[l])
    && |m'.queue| <= |m.queue| && m'.queue == m.queue[|m.queue| - |m'.queue|..]
    && (forall j :: j in m'.jobs ==> j in m.jobs && m'.jobs[j] == m.jobs[j])
    && Final(m') == Final(m)
  }

  lemma LaterTransitive(a: Machine, b: Machine, c: Machine)
    requires Later(a, b) && Later(b, c)
    ensures Later(a, c)
  {
  }

  /** The head of the stream may run: everything it waits for has ended. */
  predicate Enabled(m: Machine) {
    m.queue != [] && (m.queue[0].Await? ==> m.queue[0].jobs !! m.jobs.Keys)
  }

  function Run(m: Machine): Machine
    requires Enabled(m)
  {
    m.(vram := Effect(m.vram, m.queue[0], m.host, m.pages), queue := m.queue[1..])
  }

  function Scribble(m: Machine, lane: nat, bytes: seq<Byte>): Machine
    requires lane < |m.host|
  {
    m.(host := m.host[lane := bytes])
  }

  function Finish(m: Machine, ended: set<nat>): Machine {
    m.(jobs := m.jobs - ended)
  }

  lemma RunIsLater(m: Machine)
    requires Clean(m) && Enabled(m)
    ensures Later(m, Run(m))
  {
    var m' := Run(m);
    forall i | 0 <= i < |m'.queue| ensures Ready(m', m'.queue[i]) {
      assert Ready(m, m.queue[i + 1]);
    }
    forall j | j in m'.jobs && m'.jobs[j].fenced ensures Awaited(m'.queue, j) {
      assert Awaited(m.queue, j);
      var i :| 0 <= i < |m.queue| && m.queue[i].Await? && j in m.queue[i].jobs;
      assert i != 0;
      assert m'.queue[i - 1] == m.queue[i];
    }
  }

  /** A queued upload never sees the arbitrary bytes of a read in progress. */
  lemma ScribbleIsLater(m: Machine, lane: nat, bytes: seq<Byte>)
    requires Clean(m) && lane < |m.host| && m.reading[lane].InFlight? && |bytes| == m.chunk
    ensures Later(m, Scribble(m, lane, bytes))
  {
    var m' := Scribble(m, lane, bytes);
    forall i | 0 <= i < |m.queue|
      ensures Ready(m', m'.queue[i]) && Agree(m.queue[i], m.host, m.pages, m'.host, m'.pages)
    {
      assert Ready(m, m.queue[i]);
    }
    SettleFrame(m.vram, m.queue, m.host, m.pages, m'.host, m'.pages);
  }

  lemma FinishIsLater(m: Machine, ended: set<nat>)
    requires Clean(m)
    ensures Later(m, Finish(m, ended))
  {
    var m' := Finish(m, ended);
    forall i | 0 <= i < |m.queue| ensures Ready(m', m'.queue[i]) {
      assert Ready(m, m.queue[i]);
    }
    forall j | j in m'.jobs && m'.jobs[j].fenced ensures Awaited(m'.queue, j) && m'.jobs[j].pages <= m'.pages.Keys {
      assert Awaited(m.queue, j);
    }
  }

  /** A machine with nothing mapped: memory holds anything, every lane's event has been recorded. */
  method FreshMachine(chunk: nat, handles: nat, lanes: nat) returns (m: Machine)
    ensures Clean(m) && m.chunk == chunk && |m.vram| == handles && |m.reading| == lanes
    ensures m.pages == map[] && forall l :: 0 <= l < lanes ==> m.reading[l].Idle?
    ensures forall i :: 0 <= i < |m.queue| ==> m.queue[i].Signal?
  {
    assert Chunks(seq(handles, _ => Zeros(chunk)), chunk) && Chunks(seq(lanes, _ => Zeros(chunk)), chunk);
    var vram: seq<seq<Byte>> :| |vram| == handles && Chunks(vram, chunk);
    var host: seq<seq<Byte>> :| |host| == lanes && Chunks(host, chunk);
    m := Machine(chunk, vram, map[], host, seq(lanes, _ => Idle), seq(lanes, l requires 0 <= l < lanes => Signal(l)), map[], 0);
  }

  /** Any amount of any progress the device, the disk and the other streams can make. */
  method Elapse(m: Machine) returns (m': Machine)
    requires Clean(m)
    ensures Later(m, m') && m'.faults == m.faults
  {
    m' := m;
    var steps: nat :| 0 <= steps;
    for i := 0 to steps
      invariant Later(m, m') && m'.faults == m.faults
    {
      m' := Tick(m, m');
    }
  }

  lemma ThenRun(start: Machine, m: Machine)
    requires Clean(m) && Later(start, m) && Enabled(m)
    ensures Later(start, Run(m))
  {
    RunIsLater(m);
    LaterTransitive(start, m, Run(m));
  }

  lemma ThenScribble(start: Machine, m: Machine, lane: nat, bytes: seq<Byte>)
    requires Clean(m) && Later(start, m) && lane < |m.host| && m.reading[lane].InFlight? && |bytes| == m.chunk
    ensures Later(start, Scribble(m, lane, bytes))
  {
    ScribbleIsLater(m, lane, bytes);
    LaterTransitive(start, m, Scribble(m, lane, bytes));
  }

  lemma ThenFinish(start: Machine, m: Machine, ended: set<nat>)
    requires Clean(m) && Later(start, m)
    ensures Later(start, Finish(m, ended))
  {
    FinishIsLater(m, ended);
    LaterTransitive(start, m, Finish(m, ended));
  }

  /** One step of progress, whichever the environment picks. */
  method Tick(ghost start: Machine, m: Machine) returns (m': Machine)
    requires Clean(m) && Later(start, m)
    ensures Later(start, m') && m'.faults == m.faults
  {
    m' := m;
    if
    case Enabled(m) =>
      ThenRun(start, m);
      m' := Run(m);
    case true =>
      var lane: nat, bytes: seq<Byte> :| true;
      if lane < |m.host| && m.reading[lane].InFlight? && |bytes| == m.chunk {
        ThenScribble(start, m, lane, bytes);
        m' := Scribble(m, lane, bytes);
      }
    case true =>
      var ended: set<nat> := *;
      ThenFinish(start, m, ended);
      m' := Finish(m, ended);
  }

  /** One failure more on record. */
  function Blamed(m: Machine): Machine {
    m.(faults := m.faults + 1)
  }

  lemma BlamedIsLater(start: Machine, m: Machine)
    requires Clean(m) && Later(start, m)
    ensures Clean(Blamed(m)) && Later(start, Blamed(m))
  {
    forall i | 0 <= i < |m.queue| ensures Ready(Blamed(m), m.queue[i]) {
      assert Ready(m, m.queue[i]);
    }
  }

  /** A driver call that may fail; time passes before it answers. */
  method Attempt(m: Machine) returns (ok: bool, m': Machine)
    requires Clean(m)
    ensures Later(m, m') && m'.faults == m.faults + if ok then 0 else 1
  {
    m' := Elapse(m);
    ok := *;
    if !ok {
      BlamedIsLater(m, m');
      m' := Blamed(m');
    }
  }

  /** Wait for the head of the stream to run. */
  method RunHead(ghost start: Machine, m: Machine) returns (m': Machine)
    requires Clean(m) && Later(start, m) && m.queue != []
    ensures Later(start, m') && |m'.queue| < |m.queue| && m'.faults == m.faults
  {
    var waited := m;
    if m.queue[0].Await? {
      FinishIsLater(m, m.queue[0].jobs);
      waited := Finish(m, m.queue[0].jobs);
      LaterTransitive(start, m, waited);
    }
    RunIsLater(waited);
    m' := Run(waited);
    LaterTransitive(start, waited, m');
  }

  /** cuStreamSynchronize, when it succeeds. */
  method Drained(m: Machine) returns (m': Machine)
    requires Clean(m)
    ensures Later(m, m') && m'.queue == [] && m'.faults == m.faults
  {
    m' := Elapse(m);
    while m'.queue != []
      invariant Later(m, m') && m'.faults == m.faults
      decreases |m'.queue|
    {
      m' := RunHead(m, m');
    }
  }

  /** cuStreamSynchronize: on success everything queued has run. */
  method StreamSynchronize(m: Machine) returns (ok: bool, m': Machine)
    requires Clean(m)
    ensures Later(m, m') && (ok ==> m'.queue == []) && m'.faults == m.faults + if ok then 0 else 1
  {
    ok, m' := Attempt(m);
    while ok && m'.queue != []
      invariant Later(m, m') && m'.faults == m.faults + if ok then 0 else 1
      decreases |m'.queue|
    {
      m' := RunHead(m, m');
    }
  }

  /** cuEventSynchronize: on success the last recording of the lane's event has run. */
  method EventSynchronize(m: Machine, lane: nat) returns (ok: bool, m': Machine)
    requires Clean(m)
    ensures Later(m, m') && (ok ==> Signal(lane) !in m'.queue) && m'.faults == m.faults + if ok then 0 else 1
  {
    ok, m' := Attempt(m);
    while ok && Signal(lane) in m'.queue
      invariant Later(m, m') && m'.faults == m.faults + if ok then 0 else 1
      decreases |m'.queue|
    {
      m' := RunHead(m, m');
    }
  }

  // ----- Submitting work -----

  predicate Uses(op: Op, page: nat) {
    match op
    case Copy(p, _, _) => p == page
    case Clear(p, _) => p == page
    case Signal(_) => false
    case Kernel(pages) => page in pages
    case Await(_) => false
  }

  /** No unfinished work on the tensor's stream, or fenced by it, uses the page. */
  predicate Unused(m: Machine, page: nat) {
    && (forall i :: 0 <= i < |m.queue| ==> !Uses(m.queue[i], page))
    && (forall j :: j in m.jobs && m.jobs[j].fenced ==> page !in m.jobs[j].pages)
  }

  predicate Uploading(m: Machine, lane: nat) {
    exists i :: 0 <= i < |m.queue| && m.queue[i].Copy? && m.queue[i].lane == lane
  }

  function Enqueue(m: Machine, op: Op): (m': Machine)
    requires Clean(m) && Ready(m, op)
    ensures Clean(m')
  {
    var m' := m.(queue := m.queue + [op]);
    EnqueueKeepsClean(m, op);
    m'
  }

  lemma EnqueueKeepsClean(m: Machine, op: Op)
    requires Clean(m) && Ready(m, op)
    ensures Clean(m.(queue := m.queue + [op]))
  {
    var m' := m.(queue := m.queue + [op]);
    forall i | 0 <= i < |m'.queue| ensures Ready(m', m'.queue[i]) {
      assert m'.queue[i] == if i < |m.queue| then m.queue[i] else op;
    }
    forall j | j in m'.jobs && m'.jobs[j].fenced ensures Awaited(m'.queue, j) {
      var i :| 0 <= i < |m.queue| && m.queue[i].Await? && j in m.queue[i].jobs;
      assert m'.queue[i] == m.queue[i];
    }
  }

  lemma EnqueueSettles(m: Machine, op: Op)
    requires Clean(m) && Ready(m, op)
    ensures Final(Enqueue(m, op)) == Effect(Final(m), op, m.host, m.pages)
  {
    SettleAppend(m.vram, m.queue, op, m.host, m.pages);
  }

  /** cuMemUnmap. Only pages that no unfinished work uses may go. */
  function Unmap(m: Machine, page: nat): (m': Machine)
    requires Clean(m) && page in m.pages && Unused(m, page)
    ensures Clean(m')
  {
    var m' := m.(pages := m.pages - {page});
    UnmapKeepsClean(m, page);
    m'
  }

  lemma UnmapKeepsClean(m: Machine, page: nat)
    requires Clean(m) && page in m.pages && Unused(m, page)
    ensures Clean(m.(pages := m.pages - {page}))
    ensures Final(m.(pages := m.pages - {page})) == Final(m)
  {
    var m' := m.(pages := m.pages - {page});
    forall i | 0 <= i < |m.queue|
      ensures Ready(m', m'.queue[i]) && Agree(m.queue[i], m.host, m.pages, m'.host, m'.pages)
    {
      assert Ready(m, m.queue[i]) && !Uses(m.queue[i], page);
    }
    SettleFrame(m.vram, m.queue, m.host, m.pages, m'.host, m'.pages);
  }

  /** cuMemMap: the page gets the physical chunk, without access rights. */
  function Map(m: Machine, page: nat, handle: nat): (m': Machine)
    requires Clean(m) && page !in m.pages && handle < |m.vram|
    ensures Clean(m')
  {
    var m' := m.(pages := m.pages[page := Mapping(handle, NoAccess)]);
    MapKeepsClean(m, page, handle);
    m'
  }

  lemma MapKeepsClean(m: Machine, page: nat, handle: nat)
    requires Clean(m) && page !in m.pages && handle < |m.vram|
    ensures Clean(m.(pages := m.pages[page := Mapping(handle, NoAccess)]))
    ensures Final(m.(pages := m.pages[page := Mapping(handle, NoAccess)])) == Final(m)
  {
    var m' := m.(pages := m.pages[page := Mapping(handle, NoAccess)]);
    forall i | 0 <= i < |m.queue|
      ensures Ready(m', m'.queue[i]) && Agree(m.queue[i], m.host, m.pages, m'.host, m'.pages)
    {
      assert Ready(m, m.queue[i]);
    }
    SettleFrame(m.vram, m.queue, m.host, m.pages, m'.host, m'.pages);
  }

  /** cuMemSetAccess. Write access may not be withdrawn under a queued write. */
  function SetAccess(m: Machine, page: nat, access: Access): (m': Machine)
    requires Clean(m) && page in m.pages
    requires access == ReadWrite || m.queue == []
    ensures Clean(m')
  {
    var m' := m.(pages := m.pages[page := m.pages[page].(access := access)]);
    SetAccessKeepsClean(m, page, access);
    m'
  }

  lemma SetAccessKeepsClean(m: Machine, page: nat, access: Access)
    requires Clean(m) && page in m.pages
    requires access == ReadWrite || m.queue == []
    ensures Clean(m.(pages := m.pages[page := m.pages[page].(access := access)]))
    ensures Final(m.(pages := m.pages[page := m.pages[page].(access := access)])) == Final(m)
  {
    var m' := m.(pages := m.pages[page := m.pages[page].(access := access)]);
    forall i | 0 <= i < |m.queue|
      ensures Ready(m', m'.queue[i]) && Agree(m.queue[i], m.host, m.pages, m'.host, m'.pages)
    {
      assert Ready(m, m.queue[i]);
    }
    SettleFrame(m.vram, m.queue, m.host, m.pages, m'.host, m'.pages);
  }

  /** ReadFile: the lane's buffer is the disk's until the read completes. */
  function StartRead(m: Machine, lane: nat, offset: nat, wanted: nat): (m': Machine)
    requires Clean(m) && lane < |m.reading| && m.reading[lane].Idle? && !Uploading(m, lane)
    ensures Clean(m')
  {
    var m' := m.(reading := m.reading[lane := InFlight(offset, wanted)]);
    assert forall i :: 0 <= i < |m.queue| ==> Ready(m, m.queue[i]) && Ready(m', m.queue[i]);
    m'
  }

  /** The read has ended with these bytes in the buffer. */
  function EndRead(m: Machine, lane: nat, bytes: seq<Byte>): (m': Machine)
    requires Clean(m) && lane < |m.reading| && m.reading[lane].InFlight? && |bytes| == m.chunk
    ensures Clean(m') && Final(m') == Final(m)
  {
    var m' := m.(reading := m.reading[lane := Idle], host := m.host[lane := bytes]);
    EndReadKeepsClean(m, lane, bytes);
    m'
  }

  lemma EndReadKeepsClean(m: Machine, lane: nat, bytes: seq<Byte>)
    requires Clean(m) && lane < |m.reading| && m.reading[lane].InFlight? && |bytes| == m.chunk
    ensures Clean(m.(reading := m.reading[lane := Idle], host := m.host[lane := bytes]))
    ensures Final(m.(reading := m.reading[lane := Idle], host := m.host[lane := bytes])) == Final(m)
  {
    var m' := m.(reading := m.reading[lane := Idle], host := m.host[lane := bytes]);
    forall i | 0 <= i < |m.queue|
      ensures Ready(m', m'.queue[i]) && Agree(m.queue[i], m.host, m.pages, m'.host, m'.pages)
    {
      assert Ready(m, m.queue[i]);
    }
    SettleFrame(m.vram, m.queue, m.host, m.pages, m'.host, m'.pages);
  }

  /** GetOverlappedResult, waiting: on success `got` bytes of the file are in the buffer, possibly
    * fewer than wanted; the rest of the buffer is arbitrary. A failed call promises nothing
    * about the buffer, nor that the read has ended. */
  method AwaitRead(file: seq<Byte>, m: Machine, lane: nat) returns (ok: bool, got: nat, m': Machine)
    requires Clean(m) && lane < |m.reading| && m.reading[lane].InFlight?
    requires m.reading[lane].offset + m.reading[lane].wanted <= |file| && m.reading[lane].wanted <= m.chunk
    ensures !ok ==> Later(m, m')
    ensures m'.faults == m.faults + if ok && got == m.reading[lane].wanted then 0 else 1
    ensures ok ==> got <= m.reading[lane].wanted
    ensures ok ==> exists before: Machine, bytes: seq<Byte> ::
      && Later(m, before) && |bytes| == m.chunk && m' == EndRead(before, lane, bytes)
      && bytes[..got] == file[m.reading[lane].offset..m.reading[lane].offset + got]
  {
    ok, m' := Attempt(m);
    got := 0;
    if ok {
      var count: nat, rest: seq<Byte> :| true;
      var offset := m.reading[lane].offset;
      got := Min(count, m.reading[lane].wanted);
      var bytes := file[offset..offset + got] + if |rest| == m.chunk - got then rest else Zeros(m.chunk - got);
      if got < m.reading[lane].wanted {
        BlamedIsLater(m, m');
        m' := Blamed(m');
      }
      m' := EndRead(m', lane, bytes);
    }
  }

  /** Submit a consumer on another stream. */
  function Submit(m: Machine, job: nat, stream: nat, pages: set<nat>): (m': Machine)
    requires Clean(m) && job !in m.jobs
    ensures Clean(m')
  {
    var m' := m.(jobs := m.jobs[job := Job(stream, pages, false)]);
    assert forall i :: 0 <= i < |m.queue| ==> Ready(m, m.queue[i]) && Ready(m', m.queue[i]);
    m'
  }

  function JobsOn(m: Machine, stream: nat): set<nat> {
    set j | j in m.jobs && m.jobs[j].stream == stream
  }

  /** The jobs of a stream, fenced if their pages are mapped. */
  function FencedJobs(m: Machine, stream: nat): (jobs: map<nat, Job>)
    ensures jobs.Keys == m.jobs.Keys
  {
    map j | j in m.jobs :: if m.jobs[j].stream == stream && m.jobs[j].pages <= m.pages.Keys then m.jobs[j].(fenced := true) else m.jobs[j]
  }

  lemma FenceKeepsClean(m: Machine, queued: Machine, m': Machine, stream: nat)
    requires Clean(m) && queued == m.(queue := m.queue + [Await(JobsOn(m, stream))]) && Clean(queued)
    requires m' == queued.(jobs := FencedJobs(m, stream))
    ensures Clean(m') && forall j :: j in m.jobs && m.jobs[j].stream == stream ==> Awaited(m'.queue, j)
  {
    assert m'.queue[|m.queue|] == Await(JobsOn(m, stream));
    forall i | 0 <= i < |m'.queue| ensures Ready(m', m'.queue[i]) {
      assert Ready(queued, m'.queue[i]);
    }
  }

  /** Record an event on another stream and make the tensor's stream wait for it: the jobs
    * already submitted there, whose pages are still mapped, are fenced from now on. */
  function Fence(m: Machine, stream: nat): (m': Machine)
    requires Clean(m)
    ensures Clean(m') && Final(m') == Final(m)
    ensures m' == m.(queue := m'.queue, jobs := m'.jobs)
    ensures |m'.queue| == |m.queue| + 1 && m'.queue[..|m.queue|] == m.queue && m'.queue[|m.queue|].Await?
    ensures m'.jobs.Keys == m.jobs.Keys
    ensures forall j :: j in m.jobs && m.jobs[j].stream == stream ==>
              Awaited(m'.queue, j) && (m.jobs[j].pages <= m.pages.Keys ==> m'.jobs[j].fenced)
    ensures forall j :: j in m.jobs ==> m'.jobs[j].pages == m.jobs[j].pages && m'.jobs[j].stream == m.jobs[j].stream
  {
    var wait := Await(JobsOn(m, stream));
    EnqueueKeepsClean(m, wait);
    EnqueueSettles(m, wait);
    var queued := m.(queue := m.queue + [wait]);
    var m' := queued.(jobs := FencedJobs(m, stream));
    FenceKeepsClean(m, queued, m', stream);
    m'
  }

  /** No unfinished work on the tensor's stream, or fenced by it, needs any page. */
  predicate Pageless(m: Machine) {
    && (forall i :: 0 <= i < |m.queue| ==> !m.queue[i].Copy? && !m.queue[i].Clear? && (m.queue[i].Kernel? ==> m.queue[i].pages == {}))
    && (forall j :: j in m.jobs && m.jobs[j].fenced ==> m.jobs[j].pages == {})
  }

  /** With every page unmapped at once, nothing can go wrong exactly if no unfinished work needs one. */
  lemma UnmappedIsClean(m: Machine, m': Machine)
    requires Clean(m) && m' == m.(pages := map[])
    ensures Clean(m') <==> Pageless(m')
    ensures m.queue == [] ==> Clean(m')
  {
    forall i | 0 <= i < |m.queue|
      ensures Ready(m', m'.queue[i]) <==> !m.queue[i].Copy? && !m.queue[i].Clear? && (m.queue[i].Kernel? ==> m.queue[i].pages == {})
    {
      assert Ready(m, m.queue[i]);
    }
    forall j | j in m.jobs && m.jobs[j].fenced ensures Awaited(m.queue, j) {
    }
  }
}
