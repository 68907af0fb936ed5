/** The allocation table under concurrency: operations of any number of threads, interleaved
  * slot visit by slot visit (each visit holds one lock), and reclaims, which hold all locks. */
module ProbeSteps {
  import opened ProbeTables
  import opened Reclaiming

  /** An operation in progress has visited `i` slots. For a lookup or a removal, `was` and `removals`
    * record, for the specification, whether the key was present when the operation began and how
    * many times it had been removed by then. */
  datatype Op =
    | Insert(key: nat, info: Info, i: nat)
    | Search(key: nat, remove: bool, i: nat, was: bool, removals: nat)
    | Inserted(key: nat, ok: bool)
    | Found(key: nat, remove: bool, info: Info, was: bool, removals: nat)
    | Missed(key: nat, remove: bool, was: bool, removals: nat)

  /** The table, the operation of each thread, and the history: how often each key was inserted and
    * removed, and with what information it was inserted last. */
  datatype State = State(table: seq<Entry>, tombstones: int, ops: map<nat, Op>,
                         inserted: multiset<nat>, removed: multiset<nat>, infos: map<nat, Info>)

  ghost predicate Start(s: State, hash: nat -> nat) {
    && HashOk(hash, |s.table|)
    && (forall a :: 0 <= a < |s.table| ==> s.table[a].ptr == EMPTY)
    && s.tombstones == 0 && s.ops == map[] && s.inserted == multiset{} && s.removed == multiset{} && s.infos == map[]
  }

  /** Keys handed to an insertion are fresh: not in the table, and not being inserted by another thread. */
  ghost predicate Fresh(s: State, key: nat) {
    && key >= 2 && !Present(s.table, key)
    && forall t :: t in s.ops && s.ops[t].Insert? ==> s.ops[t].key != key
  }

  predicate Idle(s: State, t: nat) {
    t in s.ops ==> !s.ops[t].Insert? && !s.ops[t].Search?
  }

  ghost predicate BeginInsert(s: State, s': State, t: nat, key: nat, info: Info) {
    Idle(s, t) && Fresh(s, key) && s' == s.(ops := s.ops[t := Insert(key, info, 0)])
  }

  ghost predicate BeginSearch(s: State, s': State, t: nat, key: nat, remove: bool) {
    Idle(s, t) && key >= 2 && s' == s.(ops := s.ops[t := Search(key, remove, 0, Present(s.table, key), s.removed[key])])
  }

  /** One slot visit of an insertion, under that slot's lock. */
  function InsertVisit(s: State, hash: nat -> nat, t: nat): State
    requires t in s.ops && s.ops[t].Insert? && hash(s.ops[t].key) < |s.table|
  {
    var Insert(key, info, i) := s.ops[t];
    if i >= |s.table| then s.(ops := s.ops[t := Inserted(key, false)])
    else
      var a := Visit(hash(key), i, |s.table|);
      if s.table[a].ptr == EMPTY || s.table[a].ptr == TOMBSTONE then
        s.(table := s.table[a := Entry(key, info)],
           tombstones := if s.table[a].ptr == TOMBSTONE then s.tombstones - 1 else s.tombstones,
           ops := s.ops[t := Inserted(key, true)],
           inserted := s.inserted + multiset{key}, infos := s.infos[key := info])
      else s.(ops := s.ops[t := Insert(key, info, i + 1)])
  }

  /** One slot visit of a lookup or a removal. */
  function SearchVisit(s: State, hash: nat -> nat, t: nat): State
    requires t in s.ops && s.ops[t].Search? && hash(s.ops[t].key) < |s.table|
  {
    var Search(key, remove, i, was, removals) := s.ops[t];
    if i >= |s.table| then s.(ops := s.ops[t := Missed(key, remove, was, removals)])
    else
      var a := Visit(hash(key), i, |s.table|);
      if s.table[a].ptr == EMPTY then s.(ops := s.ops[t := Missed(key, remove, was, removals)])
      else if s.table[a].ptr == key then
        var done := s.(ops := s.ops[t := Found(key, remove, s.table[a].info, was, removals)]);
        if remove then done.(table := s.table[a := REMOVED], tombstones := s.tombstones + 1, removed := s.removed + multiset{key})
        else done
      else s.(ops := s.ops[t := Search(key, remove, i + 1, was, removals)])
  }

  /** A reclaim between two slot visits of whatever operations are in progress. */
  ghost function Swept(s: State, hash: nat -> nat): State
    requires HashOk(hash, |s.table|)
  {
    s.(table := Reclaimed(s.table, hash), tombstones := 0)
  }

  datatype Action =
    | BeginInsertion(t: nat, key: nat, info: Info)
    | BeginSearching(t: nat, key: nat, remove: bool)
    | VisitSlot(t: nat)
    | Sweeping

  /** The action is a step of this thread. */
  predicate Of(act: Action, t: nat) {
    !act.Sweeping? && act.t == t
  }

  ghost predicate Next(s: State, s': State, hash: nat -> nat, act: Action) {
    && HashOk(hash, |s.table|)
    && match act
       case BeginInsertion(t, key, info) => BeginInsert(s, s', t, key, info)
       case BeginSearching(t, key, remove) => BeginSearch(s, s', t, key, remove)
       case VisitSlot(t) =>
         && t in s.ops && !Idle(s, t)
         && s' == if s.ops[t].Insert? then InsertVisit(s, hash, t) else SearchVisit(s, hash, t)
       case Sweeping => s' == Swept(s, hash)
  }

  // ----- The invariant -----

  /** The key has been in the table ever since the operation began. */
  predicate Throughout(removed: multiset<nat>, key: nat, was: bool, removals: nat) {
    was && removed[key] == removals
  }

  /** The key is in a slot that a probe has not visited in its first `i` steps. */
  ghost predicate Ahead(t: seq<Entry>, hash: nat -> nat, key: nat, i: nat)
    requires HashOk(hash, |t|)
  {
    exists a: nat :: Has(t, a, key) && i <= Distance(hash(key), a, |t|)
  }

  ghost predicate OpOk(t: seq<Entry>, removed: multiset<nat>, hash: nat -> nat, op: Op)
    requires HashOk(hash, |t|)
  {
    match op
    case Insert(key, info, i) =>
      && key >= 2 && !Present(t, key) && i <= |t|
      && forall j :: 0 <= j < i ==> t[Visit(hash(key), j, |t|)].ptr != EMPTY
    case Search(key, remove, i, was, removals) =>
      && key >= 2 && removals <= removed[key]
      && (Throughout(removed, key, was, removals) ==> Ahead(t, hash, key, i))
    case Inserted(key, ok) => true
    case Found(key, remove, info, was, removals) => removals <= removed[key] && (remove ==> removals < removed[key])
    case Missed(key, remove, was, removals) => removals <= removed[key] && !Throughout(removed, key, was, removals)
  }

  ghost predicate OpsOk(s: State, hash: nat -> nat)
    requires HashOk(hash, |s.table|)
  {
    && (forall t :: t in s.ops ==> OpOk(s.table, s.removed, hash, s.ops[t]))
    && (forall t, u :: t in s.ops && u in s.ops && t != u && s.ops[t].Insert? && s.ops[u].Insert? ==> s.ops[t].key != s.ops[u].key)
  }

  /** The history explains the table. */
  ghost predicate Explained(s: State) {
    && (forall k: nat :: s.inserted[k] == s.removed[k] + if Present(s.table, k) then 1 else 0)
    && (forall k :: k in Contents(s.table) ==> k in s.infos && s.infos[k] == Contents(s.table)[k])
  }

  ghost predicate Inv(s: State, hash: nat -> nat) {
    && HashOk(hash, |s.table|)
    && Unique(s.table) && Chained(s.table, hash) && s.tombstones == Tombstones(s.table)
    && OpsOk(s, hash) && Explained(s)
  }

  // ----- Every step keeps the invariant -----

  lemma PresentIffInContents(t: seq<Entry>, key: nat)
    ensures Present(t, key) <==> key in Contents(t)
  {
    KeysArePresent(t);
  }

  /** A key that enters a free slot disturbs no other operation. */
  lemma OpAfterAdd(t: seq<Entry>, removed: multiset<nat>, hash: nat -> nat, a: nat, e: Entry, op: Op)
    requires HashOk(hash, |t|) && a < |t| && !Live(t[a]) && Live(e)
    requires OpOk(t, removed, hash, op) && (op.Insert? ==> op.key != e.ptr)
    ensures OpOk(t[a := e], removed, hash, op)
  {
    var t' := t[a := e];
    if op.Insert? && Present(t', op.key) {
      assert Has(t, Where(t', op.key), op.key);
    }
    if op.Search? && Throughout(removed, op.key, op.was, op.removals) {
      var b: nat :| Has(t, b, op.key) && op.i <= Distance(hash(op.key), b, |t|);
      assert Has(t', b, op.key);
    }
  }

  /** A removal disturbs no other operation: those on the same key know that it was not there throughout. */
  lemma OpAfterDrop(t: seq<Entry>, removed: multiset<nat>, hash: nat -> nat, a: nat, op: Op)
    requires HashOk(hash, |t|) && a < |t| && Live(t[a])
    requires OpOk(t, removed, hash, op)
    ensures OpOk(t[a := REMOVED], removed + multiset{t[a].ptr}, hash, op)
  {
    var t', removed' := t[a := REMOVED], removed + multiset{t[a].ptr};
    if op.Insert? && Present(t', op.key) {
      assert Has(t, Where(t', op.key), op.key);
    }
    if op.Search? && Throughout(removed', op.key, op.was, op.removals) {
      assert op.key != t[a].ptr;
      var b: nat :| Has(t, b, op.key) && op.i <= Distance(hash(op.key), b, |t|);
      assert Has(t', b, op.key);
    }
  }

  lemma ExplainedAdd(s: State, s': State, a: nat, key: nat, info: Info)
    requires Unique(s.table) && Explained(s) && a < |s.table| && !Live(s.table[a]) && key >= 2 && !Present(s.table, key)
    requires s'.table == s.table[a := Entry(key, info)] && s'.inserted == s.inserted + multiset{key}
    requires s'.removed == s.removed && s'.infos == s.infos[key := info]
    ensures Explained(s')
  {
    ContentsAdd(s.table, a, Entry(key, info));
    forall k: nat ensures Present(s'.table, k) <==> k == key || Present(s.table, k) {
      PresentIffInContents(s.table, k);
      PresentIffInContents(s'.table, k);
    }
  }

  lemma ExplainedDrop(s: State, s': State, a: nat)
    requires Unique(s.table) && Explained(s) && a < |s.table| && Live(s.table[a])
    requires s'.table == s.table[a := REMOVED] && s'.removed == s.removed + multiset{s.table[a].ptr}
    requires s'.inserted == s.inserted && s'.infos == s.infos
    ensures Explained(s')
  {
    var key := s.table[a].ptr;
    ContentsDrop(s.table, a, REMOVED);
    assert Has(s.table, a, key);
    forall k: nat ensures Present(s'.table, k) <==> k != key && Present(s.table, k) {
      PresentIffInContents(s.table, k);
      PresentIffInContents(s'.table, k);
    }
  }

  lemma InsertSeats(s: State, s': State, hash: nat -> nat, t: nat, a: nat)
    requires Inv(s, hash) && t in s.ops && s.ops[t].Insert?
    requires s.ops[t].i < |s.table| && a == Visit(hash(s.ops[t].key), s.ops[t].i, |s.table|) && !Live(s.table[a])
    requires s' == InsertVisit(s, hash, t)
    ensures Inv(s', hash)
  {
    var Insert(key, info, i) := s.ops[t];
    assert OpOk(s.table, s.removed, hash, s.ops[t]);
    var e := Entry(key, info);
    assert Distance(hash(key), a, |s.table|) == i;
    ContentsAdd(s.table, a, e);
    ChainedAdd(s.table, hash, a, e);
    TombstonesUpdate(s.table, a, e);
    ExplainedAdd(s, s', a, key, info);
    forall u | u in s'.ops ensures OpOk(s'.table, s'.removed, hash, s'.ops[u]) {
      if u != t {
        OpAfterAdd(s.table, s.removed, hash, a, e, s.ops[u]);
      }
    }
  }

  lemma InsertVisitKeeps(s: State, hash: nat -> nat, t: nat)
    requires Inv(s, hash) && t in s.ops && s.ops[t].Insert?
    ensures Inv(InsertVisit(s, hash, t), hash)
  {
    assert OpOk(s.table, s.removed, hash, s.ops[t]);
    var i := s.ops[t].i;
    if i < |s.table| {
      var a := Visit(hash(s.ops[t].key), i, |s.table|);
      if !Live(s.table[a]) {
        InsertSeats(s, InsertVisit(s, hash, t), hash, t, a);
      }
    }
  }

  /** A search that meets an empty slot, or the end of its probe, was for a key that has not been
    * in the table throughout. */
  lemma SearchEnds(t: seq<Entry>, hash: nat -> nat, key: nat, i: nat)
    requires HashOk(hash, |t|) && Chained(t, hash)
    requires i >= |t| || t[Visit(hash(key), i, |t|)].ptr == EMPTY
    ensures !Ahead(t, hash, key, i)
  {
    forall a: nat | Has(t, a, key) ensures Distance(hash(key), a, |t|) < i {
      assert Reachable(t, hash, a);
    }
  }

  /** A search that meets another key goes on with the key still ahead. */
  lemma SearchGoesOn(t: seq<Entry>, hash: nat -> nat, key: nat, i: nat)
    requires HashOk(hash, |t|) && i < |t| && t[Visit(hash(key), i, |t|)].ptr != key
    requires Ahead(t, hash, key, i)
    ensures Ahead(t, hash, key, i + 1)
  {
    var a: nat :| Has(t, a, key) && i <= Distance(hash(key), a, |t|);
    assert Visit(hash(key), Distance(hash(key), a, |t|), |t|) == a;
  }

  lemma RemoveVisitKeeps(s: State, s': State, hash: nat -> nat, t: nat, a: nat)
    requires Inv(s, hash) && t in s.ops && s.ops[t].Search? && s.ops[t].remove
    requires a < |s.table| && s.table[a].ptr == s.ops[t].key
    requires var op := s.ops[t];
             s' == s.(table := s.table[a := REMOVED], tombstones := s.tombstones + 1, removed := s.removed + multiset{op.key},
                      ops := s.ops[t := Found(op.key, true, s.table[a].info, op.was, op.removals)])
    ensures Inv(s', hash)
  {
    assert OpOk(s.table, s.removed, hash, s.ops[t]);
    ContentsDrop(s.table, a, REMOVED);
    ChainedDrop(s.table, hash, a, REMOVED);
    TombstonesUpdate(s.table, a, REMOVED);
    ExplainedDrop(s, s', a);
    forall u | u in s'.ops ensures OpOk(s'.table, s'.removed, hash, s'.ops[u]) {
      if u != t {
        OpAfterDrop(s.table, s.removed, hash, a, s.ops[u]);
      }
    }
  }

  /** A search that only moves on, or ends, changes its own record and nothing else. */
  lemma SearchMoves(s: State, s': State, hash: nat -> nat, t: nat, op: Op)
    requires Inv(s, hash) && t in s.ops && s' == s.(ops := s.ops[t := op])
    requires !op.Insert? && OpOk(s.table, s.removed, hash, op)
    ensures Inv(s', hash)
  {
  }

  lemma SearchVisitKeeps(s: State, hash: nat -> nat, t: nat)
    requires Inv(s, hash) && t in s.ops && s.ops[t].Search?
    ensures Inv(SearchVisit(s, hash, t), hash)
  {
    var s' := SearchVisit(s, hash, t);
    var Search(key, remove, i, was, removals) := s.ops[t];
    assert OpOk(s.table, s.removed, hash, s.ops[t]);
    if i >= |s.table| || s.table[Visit(hash(key), i, |s.table|)].ptr == EMPTY {
      SearchEnds(s.table, hash, key, i);
      SearchMoves(s, s', hash, t, Missed(key, remove, was, removals));
    } else if s.table[Visit(hash(key), i, |s.table|)].ptr != key {
      if Throughout(s.removed, key, was, removals) {
        SearchGoesOn(s.table, hash, key, i);
      }
      SearchMoves(s, s', hash, t, Search(key, remove, i + 1, was, removals));
    } else if remove {
      RemoveVisitKeeps(s, s', hash, t, Visit(hash(key), i, |s.table|));
    } else {
      SearchMoves(s, s', hash, t, s'.ops[t]);
    }
  }

  lemma BeginKeeps(s: State, s': State, hash: nat -> nat, t: nat, key: nat, info: Info, remove: bool)
    requires Inv(s, hash) && (BeginInsert(s, s', t, key, info) || BeginSearch(s, s', t, key, remove))
    ensures Inv(s', hash)
  {
    if s'.ops[t].Search? && Present(s.table, key) {
      assert Has(s.table, Where(s.table, key), key);
    }
  }

  // ----- Reclaims -----

  /** What an operation in progress relies on survives the reclaim: the slots an insertion has passed
    * are still taken, and a key present throughout is still ahead of its search. */
  ghost predicate Unhurt(t: seq<Entry>, removed: multiset<nat>, hash: nat -> nat, op: Op)
    requires HashOk(hash, |t|)
  {
    match op
    case Insert(key, info, i) => forall j :: 0 <= j < i && j < |t| ==> Reclaimed(t, hash)[Visit(hash(key), j, |t|)].ptr != EMPTY
    case Search(key, remove, i, was, removals) => Throughout(removed, key, was, removals) ==> Ahead(Reclaimed(t, hash), hash, key, i)
    case _ => true
  }

  ghost predicate AllUnhurt(s: State, hash: nat -> nat)
    requires HashOk(hash, |s.table|)
  {
    forall t :: t in s.ops ==> Unhurt(s.table, s.removed, hash, s.ops[t])
  }

  /** No operation in progress has visited a slot yet. */
  predicate Quiet(s: State) {
    forall t :: t in s.ops ==> (s.ops[t].Insert? ==> s.ops[t].i == 0) && (s.ops[t].Search? ==> s.ops[t].i == 0)
  }

  ghost predicate MaySweep(s: State, hash: nat -> nat) {
    HashOk(hash, |s.table|) && Reclaimable(s.table, hash) && AllUnhurt(s, hash)
  }

  lemma SameKeys(t: seq<Entry>, hash: nat -> nat, key: nat)
    requires HashOk(hash, |t|) && Unique(t)
    ensures Present(Reclaimed(t, hash), key) <==> Present(t, key)
  {
    ReclaimKeeps(t, hash);
    PresentIffInContents(t, key);
    PresentIffInContents(Reclaimed(t, hash), key);
  }

  lemma OpAfterSweep(t: seq<Entry>, removed: multiset<nat>, hash: nat -> nat, op: Op)
    requires HashOk(hash, |t|) && Unique(t) && OpOk(t, removed, hash, op)
    ensures OpOk(Reclaimed(t, hash), removed, hash, op) <==> Unhurt(t, removed, hash, op)
  {
    if op.Insert? {
      SameKeys(t, hash, op.key);
    }
  }

  /** A reclaim restores the invariant exactly when the table is reclaimable and no operation in
    * progress is hurt. */
  lemma SweepKeepsInv(s: State, hash: nat -> nat)
    requires Inv(s, hash)
    ensures Inv(Swept(s, hash), hash) <==> MaySweep(s, hash)
  {
    var s' := Swept(s, hash);
    ReclaimKeeps(s.table, hash);
    NoTombstones(s'.table);
    forall k: nat ensures Present(s'.table, k) <==> Present(s.table, k) {
      SameKeys(s.table, hash, k);
    }
    forall t | t in s.ops ensures OpOk(s'.table, s'.removed, hash, s'.ops[t]) <==> Unhurt(s.table, s.removed, hash, s.ops[t]) {
      OpAfterSweep(s.table, s.removed, hash, s.ops[t]);
    }
  }

  /** In particular, when no operation has visited a slot yet, exactly when the table is reclaimable. */
  lemma QuietSweep(s: State, hash: nat -> nat)
    requires Inv(s, hash) && Quiet(s)
    ensures Inv(Swept(s, hash), hash) <==> Reclaimable(s.table, hash)
  {
    SweepKeepsInv(s, hash);
    forall t | t in s.ops ensures Unhurt(s.table, s.removed, hash, s.ops[t]) {
      assert OpOk(s.table, s.removed, hash, s.ops[t]);
      if s.ops[t].Search? && Throughout(s.removed, s.ops[t].key, s.ops[t].was, s.ops[t].removals) {
        var key := s.ops[t].key;
        var a: nat :| Has(s.table, a, key) && 0 <= Distance(hash(key), a, |s.table|);
        SameKeys(s.table, hash, key);
        assert Has(Reclaimed(s.table, hash), Where(Reclaimed(s.table, hash), key), key);
      }
    }
  }

  lemma NextKeeps(s: State, s': State, hash: nat -> nat, act: Action)
    requires Inv(s, hash) && Next(s, s', hash, act) && (act.Sweeping? ==> MaySweep(s, hash))
    ensures Inv(s', hash)
  {
    match act
    case BeginInsertion(t, key, info) => BeginKeeps(s, s', hash, t, key, info, false);
    case BeginSearching(t, key, remove) => BeginKeeps(s, s', hash, t, key, Info(0, false, 0, 0), remove);
    case VisitSlot(t) =>
      if s.ops[t].Insert? {
        InsertVisitKeeps(s, hash, t);
      } else {
        SearchVisitKeeps(s, hash, t);
      }
    case Sweeping => SweepKeepsInv(s, hash);
  }

  /** The step completes a removal of the key. */
  ghost predicate Removes(s: State, s': State, act: Action, key: nat) {
    act.VisitSlot? && act.t in s.ops && s.ops[act.t].Search? && act.t in s'.ops && s'.ops[act.t].Found?
    && s'.ops[act.t].key == key && s'.ops[act.t].remove
  }

  /** A step inserts or removes at most one key, and removals are what successful removals do. */
  lemma NextCounts(s: State, s': State, hash: nat -> nat, act: Action, key: nat)
    requires Next(s, s', hash, act)
    ensures s'.removed[key] == s.removed[key] + if Removes(s, s', act, key) then 1 else 0
    ensures s'.inserted[key] >= s.inserted[key]
    ensures s'.removed[key] == s.removed[key] || s'.inserted[key] == s.inserted[key]
  {
  }

  // ----- Runs -----

  /** Any steps from a state where the invariant holds, whatever happened before. */
  ghost predicate Steps(states: seq<State>, acts: seq<Action>, hash: nat -> nat) {
    && |states| == |acts| + 1 && Inv(states[0], hash)
    && forall i :: 0 <= i < |acts| ==> NextAt(states, acts, hash, i)
  }

  ghost predicate NextAt(states: seq<State>, acts: seq<Action>, hash: nat -> nat, i: nat)
    requires i < |acts| && |states| == |acts| + 1
  {
    Next(states[i], states[i + 1], hash, acts[i])
  }

  /** A run: every reclaim in it finds a reclaimable table and hurts no operation in progress. */
  ghost predicate Run(states: seq<State>, acts: seq<Action>, hash: nat -> nat) {
    Steps(states, acts, hash) && forall i :: 0 <= i < |acts| && acts[i].Sweeping? ==> MaySweep(states[i], hash)
  }

  /** The shim's empty table is such a state. */
  lemma StartHolds(s: State, hash: nat -> nat)
    requires Start(s, hash)
    ensures Inv(s, hash)
  {
    assert NoTombstone(s.table);
    NoTombstones(s.table);
    assert forall k :: !Present(s.table, k);
  }

  /** At every moment of every run: the chains are unbroken, no key is stored twice, the tombstone
    * counter is exact, and the history explains the table. */
  lemma {:induction false} Always(states: seq<State>, acts: seq<Action>, hash: nat -> nat, i: nat)
    requires Run(states, acts, hash) && i < |states|
    ensures Inv(states[i], hash)
  {
    if i > 0 {
      Always(states, acts, hash, i - 1);
      assert NextAt(states, acts, hash, i - 1);
      NextKeeps(states[i - 1], states[i], hash, acts[i - 1]);
    }
  }

  /** How many removals of the key complete in steps `a` to `b`. */
  ghost function Successes(states: seq<State>, acts: seq<Action>, key: nat, a: nat, b: nat): nat
    requires a <= b < |states| == |acts| + 1
  {
    if a == b then 0
    else Successes(states, acts, key, a, b - 1) + if Removes(states[b - 1], states[b], acts[b - 1], key) then 1 else 0
  }

  /** What every step of a run does to the counts of one key. */
  ghost predicate Counted(states: seq<State>, acts: seq<Action>, key: nat) {
    && |states| == |acts| + 1
    && forall i :: 0 <= i < |acts| ==> CountedStep(states[i], states[i + 1], acts[i], key)
  }

  ghost predicate CountedStep(s: State, s': State, act: Action, key: nat) {
    && s'.removed[key] == s.removed[key] + (if Removes(s, s', act, key) then 1 else 0)
    && s'.inserted[key] >= s.inserted[key]
    && (s'.removed[key] == s.removed[key] || s'.inserted[key] == s.inserted[key])
  }

  lemma RunIsCounted(states: seq<State>, acts: seq<Action>, hash: nat -> nat, key: nat)
    requires Run(states, acts, hash)
    ensures Counted(states, acts, key)
  {
    forall i | 0 <= i < |acts| ensures CountedStep(states[i], states[i + 1], acts[i], key) {
      assert NextAt(states, acts, hash, i);
      NextCounts(states[i], states[i + 1], hash, acts[i], key);
    }
  }

  lemma {:induction false} SuccessesAreRemovals(states: seq<State>, acts: seq<Action>, key: nat, a: nat, b: nat)
    requires Counted(states, acts, key) && a <= b < |states|
    ensures states[b].removed[key] == states[a].removed[key] + Successes(states, acts, key, a, b)
    ensures states[b].inserted[key] >= states[a].inserted[key]
  {
    if a < b {
      SuccessesAreRemovals(states, acts, key, a, b - 1);
      assert CountedStep(states[b - 1], states[b - 1 + 1], acts[b - 1], key);
    }
  }

  /** The thread runs one search, begun in step `a`, and no other operation up to moment `b`. */
  ghost predicate Searches(acts: seq<Action>, t: nat, key: nat, remove: bool, a: nat, b: nat) {
    && a < b <= |acts| && acts[a] == BeginSearching(t, key, remove)
    && forall i :: a < i < b ==> acts[i] == VisitSlot(t) || !Of(acts[i], t)
  }

  /** The operation still is, or was, this search. */
  predicate Is(op: Op, key: nat, remove: bool, was: bool, removals: nat) {
    match op
    case Search(k, r, _, w, n) => k == key && r == remove && w == was && n == removals
    case Found(k, r, _, w, n) => k == key && r == remove && w == was && n == removals
    case Missed(k, r, w, n) => k == key && r == remove && w == was && n == removals
    case _ => false
  }

  /** A thread's search goes on with its own visits, and with the steps of the others. */
  lemma StepCarries(s: State, s': State, hash: nat -> nat, act: Action, t: nat, key: nat, remove: bool, was: bool, removals: nat)
    requires Next(s, s', hash, act) && (act == VisitSlot(t) || !Of(act, t))
    requires t in s.ops && Is(s.ops[t], key, remove, was, removals)
    ensures t in s'.ops && Is(s'.ops[t], key, remove, was, removals)
  {
    if !Of(act, t) {
      assert s'.ops[t] == s.ops[t];
    }
  }

  lemma {:induction false} SearchCarries(states: seq<State>, acts: seq<Action>, hash: nat -> nat, t: nat, key: nat, remove: bool, a: nat, b: nat)
    requires Run(states, acts, hash) && Searches(acts, t, key, remove, a, b)
    ensures t in states[b].ops
    ensures Is(states[b].ops[t], key, remove, Present(states[a].table, key), states[a].removed[key])
  {
    assert NextAt(states, acts, hash, b - 1);
    if b > a + 1 {
      SearchCarries(states, acts, hash, t, key, remove, a, b - 1);
      StepCarries(states[b - 1], states[b], hash, acts[b - 1], t, key, remove, Present(states[a].table, key), states[a].removed[key]);
    }
  }

  lemma StillPresent(states: seq<State>, acts: seq<Action>, hash: nat -> nat, key: nat, i: nat)
    requires Run(states, acts, hash) && i < |acts|
    requires Present(states[i].table, key) && Present(states[i + 1].table, key)
    ensures states[i + 1].removed[key] == states[i].removed[key]
  {
    Always(states, acts, hash, i);
    Always(states, acts, hash, i + 1);
    RunIsCounted(states, acts, hash, key);
    assert CountedStep(states[i], states[i + 1], acts[i], key);
  }

  lemma {:induction false} PresentThroughout(states: seq<State>, acts: seq<Action>, hash: nat -> nat, key: nat, a: nat, b: nat)
    requires Run(states, acts, hash) && a <= b < |states|
    requires forall i :: a <= i <= b ==> Present(states[i].table, key)
    ensures states[b].removed[key] == states[a].removed[key]
  {
    if a < b {
      PresentThroughout(states, acts, hash, key, a, b - 1);
      StillPresent(states, acts, hash, key, b - 1);
    }
  }

  /** A key that is in the table throughout a lookup or a removal is never missed by it, whatever
    * the other threads insert and remove meanwhile. */
  lemma NeverMissed(states: seq<State>, acts: seq<Action>, hash: nat -> nat, t: nat, key: nat, remove: bool, a: nat, b: nat)
    requires Run(states, acts, hash) && Searches(acts, t, key, remove, a, b)
    requires forall i :: a <= i <= b ==> Present(states[i].table, key)
    ensures t in states[b].ops && !states[b].ops[t].Missed?
  {
    SearchCarries(states, acts, hash, t, key, remove, a, b);
    PresentThroughout(states, acts, hash, key, a, b);
    Always(states, acts, hash, b);
    assert Present(states[a].table, key);
    assert OpOk(states[b].table, states[b].removed, hash, states[b].ops[t]);
  }

  /** Of any number of concurrent removals of a key that was inserted once, exactly one succeeds:
    * by the time one that began with the key present has ended, there has been one success. */
  lemma ExactlyOneRemoval(states: seq<State>, acts: seq<Action>, hash: nat -> nat, t: nat, key: nat, a: nat, b: nat)
    requires Run(states, acts, hash) && Searches(acts, t, key, true, a, b)
    requires Present(states[a].table, key)
    requires t in states[b].ops && !states[b].ops[t].Search?
    requires states[b].inserted[key] == states[a].inserted[key]
    ensures Successes(states, acts, key, a, b) == 1 && !Present(states[b].table, key)
  {
    SearchCarries(states, acts, hash, t, key, true, a, b);
    RunIsCounted(states, acts, hash, key);
    SuccessesAreRemovals(states, acts, key, a, b);
    Always(states, acts, hash, a);
    Always(states, acts, hash, b);
    assert OpOk(states[b].table, states[b].removed, hash, states[b].ops[t]);
  }

  /** What a search finds is what was inserted with the key. */
  lemma FoundInfo(s: State, hash: nat -> nat, t: nat)
    requires Inv(s, hash) && t in s.ops && s.ops[t].Search?
    ensures var op := SearchVisit(s, hash, t).ops[t];
            op.Found? ==> op.key in s.infos && op.info == s.infos[op.key]
  {
    var Search(key, remove, i, was, removals) := s.ops[t];
    assert OpOk(s.table, s.removed, hash, s.ops[t]);
    if i < |s.table| && s.table[Visit(hash(key), i, |s.table|)].ptr == key {
      ContentsAt(s.table, Visit(hash(key), i, |s.table|), key);
    }
  }

  // ----- What an insertion meets -----

  /** The thread runs one insertion, begun in step `a`, and no other operation up to moment `b`. */
  ghost predicate Inserts(acts: seq<Action>, t: nat, key: nat, info: Info, a: nat, b: nat) {
    && a < b <= |acts| && acts[a] == BeginInsertion(t, key, info)
    && forall i :: a < i < b ==> acts[i] == VisitSlot(t) || !Of(acts[i], t)
  }

  /** In step `c` the insertion visits the slot of its probe step `j`. */
  ghost predicate VisitsAt(states: seq<State>, acts: seq<Action>, hash: nat -> nat, t: nat, key: nat, info: Info, c: nat, j: nat) {
    && c < |acts| && |states| == |acts| + 1 && acts[c] == VisitSlot(t)
    && t in states[c].ops && states[c].ops[t] == Insert(key, info, j)
    && hash(key) < |states[c].table| && j < |states[c].table|
  }

  /** At its probe step `j`, in a step from `a` to `b`, the insertion met a live entry. */
  ghost predicate MetLive(states: seq<State>, acts: seq<Action>, hash: nat -> nat, t: nat, key: nat, info: Info, a: nat, b: nat, j: nat) {
    exists c: nat :: a < c < b && VisitsAt(states, acts, hash, t, key, info, c, j)
                  && Live(states[c].table[Visit(hash(key), j, |states[c].table|)])
  }

  /** In a step from `a` to `b` the insertion came to a slot that was not live, and took it. */
  ghost predicate TookFree(states: seq<State>, acts: seq<Action>, hash: nat -> nat, t: nat, key: nat, info: Info, a: nat, b: nat) {
    exists c: nat, j: nat :: a < c < b && VisitsAt(states, acts, hash, t, key, info, c, j)
                          && TakesFree(states[c].table, states[c + 1].table, hash, key, info, j)
  }

  predicate TakesFree(t: seq<Entry>, t': seq<Entry>, hash: nat -> nat, key: nat, info: Info, j: nat)
    requires hash(key) < |t| && j < |t|
  {
    var v := Visit(hash(key), j, |t|);
    !Live(t[v]) && t' == t[v := Entry(key, info)]
  }

  /** What an insertion has met so far, and how it has ended if it has. */
  ghost predicate Progressed(states: seq<State>, acts: seq<Action>, hash: nat -> nat, t: nat, key: nat, info: Info, a: nat, b: nat)
    requires a < b < |states|
  {
    && |states[b].table| == |states[a].table| && t in states[b].ops
    && match states[b].ops[t]
       case Insert(k, x, i) =>
         k == key && x == info && i <= |states[a].table| && forall j: nat :: j < i ==> MetLive(states, acts, hash, t, key, info, a, b, j)
       case Inserted(k, ok) =>
         && k == key
         && (ok ==> TookFree(states, acts, hash, t, key, info, a, b))
         && (!ok ==> forall j: nat :: j < |states[a].table| ==> MetLive(states, acts, hash, t, key, info, a, b, j))
       case _ => false
  }

  lemma MetLiveLater(states: seq<State>, acts: seq<Action>, hash: nat -> nat, t: nat, key: nat, info: Info, a: nat, b: nat, next: nat)
    requires b <= next
    ensures forall j: nat :: MetLive(states, acts, hash, t, key, info, a, b, j) ==> MetLive(states, acts, hash, t, key, info, a, next, j)
    ensures TookFree(states, acts, hash, t, key, info, a, b) ==> TookFree(states, acts, hash, t, key, info, a, next)
  {
  }

  lemma SameSize(s: State, s': State, hash: nat -> nat, act: Action)
    requires Next(s, s', hash, act)
    ensures |s'.table| == |s.table|
  {
  }

  lemma {:induction false} InsertionProgresses(states: seq<State>, acts: seq<Action>, hash: nat -> nat, t: nat, key: nat, info: Info, a: nat, b: nat)
    requires Steps(states, acts, hash) && Inserts(acts, t, key, info, a, b)
    ensures Progressed(states, acts, hash, t, key, info, a, b)
  {
    assert NextAt(states, acts, hash, b - 1);
    SameSize(states[b - 1], states[b], hash, acts[b - 1]);
    if b > a + 1 {
      InsertionProgresses(states, acts, hash, t, key, info, a, b - 1);
      MetLiveLater(states, acts, hash, t, key, info, a, b - 1, b);
      InsertionSteps(states, acts, hash, t, key, info, a, b - 1, b);
    }
  }

  lemma InsertionSteps(states: seq<State>, acts: seq<Action>, hash: nat -> nat, t: nat, key: nat, info: Info, a: nat, c: nat, next: nat)
    requires a < c < |acts| && |states| == |acts| + 1 && NextAt(states, acts, hash, c) && next == c + 1
    requires acts[c] == VisitSlot(t) || !Of(acts[c], t)
    requires |states[next].table| == |states[c].table|
    requires Progressed(states, acts, hash, t, key, info, a, c)
    requires forall j: nat :: MetLive(states, acts, hash, t, key, info, a, c, j) ==> MetLive(states, acts, hash, t, key, info, a, next, j)
    requires TookFree(states, acts, hash, t, key, info, a, c) ==> TookFree(states, acts, hash, t, key, info, a, next)
    ensures Progressed(states, acts, hash, t, key, info, a, next)
  {
    if acts[c] == VisitSlot(t) && states[c].ops[t].i < |states[c].table| {
      var j := states[c].ops[t].i;
      assert VisitsAt(states, acts, hash, t, key, info, c, j);
      if Live(states[c].table[Visit(hash(key), j, |states[c].table|)]) {
        assert MetLive(states, acts, hash, t, key, info, a, next, j);
      } else {
        assert TakesFree(states[c].table, states[next].table, hash, key, info, j);
      }
    } else if acts[c] == VisitSlot(t) {
      assert states[next].ops[t] == Inserted(key, false);
    } else {
      assert states[next].ops[t] == states[c].ops[t];
    }
  }

  /** An insertion gives up only after a whole round of live entries: whatever the other threads do
    * meanwhile, one that reports failure met a live entry in every slot of the table, each at the moment
    * it visited it; one that reports success took a slot that was not live. */
  lemma InsertionEnds(states: seq<State>, acts: seq<Action>, hash: nat -> nat, t: nat, key: nat, info: Info, a: nat, b: nat)
    requires Steps(states, acts, hash) && Inserts(acts, t, key, info, a, b)
    ensures t in states[b].ops && (states[b].ops[t].Insert? || states[b].ops[t].Inserted?) && states[b].ops[t].key == key
    ensures states[b].ops[t] == Inserted(key, false) ==>
              forall j: nat :: j < |states[a].table| ==> MetLive(states, acts, hash, t, key, info, a, b, j)
    ensures states[b].ops[t] == Inserted(key, true) ==> TookFree(states, acts, hash, t, key, info, a, b)
  {
    InsertionProgresses(states, acts, hash, t, key, info, a, b);
  }
}
