/** A reclaim between two slot visits of an operation: exactly what the operation then does. */
module ReclaimRaces {
  import opened ProbeTables
  import opened Reclaiming
  import opened ProbeSteps

  // ----- One operation runs to its end, undisturbed -----

  function FinishSearch(s: State, hash: nat -> nat, t: nat): (s': State)
    requires t in s.ops && s.ops[t].Search? && hash(s.ops[t].key) < |s.table|
    ensures t in s'.ops && (s'.ops[t].Found? || s'.ops[t].Missed?)
    decreases |s.table| - s.ops[t].i
  {
    var s' := SearchVisit(s, hash, t);
    if s'.ops[t].Search? then FinishSearch(s', hash, t) else s'
  }

  function FinishInsert(s: State, hash: nat -> nat, t: nat): (s': State)
    requires t in s.ops && s.ops[t].Insert? && hash(s.ops[t].key) < |s.table|
    ensures t in s'.ops && s'.ops[t].Inserted? && |s'.table| == |s.table|
    decreases |s.table| - s.ops[t].i
  {
    var s' := InsertVisit(s, hash, t);
    if s'.ops[t].Insert? then FinishInsert(s', hash, t) else s'
  }

  /** From step `i` on the probe meets the key at step `d`, before any empty slot. */
  predicate MeetsFrom(t: seq<Entry>, h: nat, key: nat, i: nat, d: nat)
    requires h < |t|
  {
    i <= d < |t| && t[Visit(h, d, |t|)].ptr == key && forall j :: i <= j < d ==> t[Visit(h, j, |t|)].ptr != EMPTY
  }

  lemma MetLater(t: seq<Entry>, h: nat, key: nat, i: nat, next: nat)
    requires h < |t| && i < |t| && t[Visit(h, i, |t|)].ptr != EMPTY && t[Visit(h, i, |t|)].ptr != key
    requires next == i + 1
    ensures (exists d: nat :: MeetsFrom(t, h, key, i, d)) <==> exists d: nat :: MeetsFrom(t, h, key, next, d)
  {
    if d: nat :| MeetsFrom(t, h, key, i, d) {
      assert MeetsFrom(t, h, key, next, d);
    }
    if d: nat :| MeetsFrom(t, h, key, next, d) {
      assert MeetsFrom(t, h, key, i, d);
    }
  }

  /** A search finds its key exactly when the key is at its step or later, with no empty slot between. */
  lemma {:induction false} SearchOutcome(s: State, hash: nat -> nat, t: nat)
    requires t in s.ops && s.ops[t].Search? && s.ops[t].key >= 2 && hash(s.ops[t].key) < |s.table|
    ensures FinishSearch(s, hash, t).ops[t].Found? <==>
              exists d: nat :: MeetsFrom(s.table, hash(s.ops[t].key), s.ops[t].key, s.ops[t].i, d)
    decreases |s.table| - s.ops[t].i
  {
    var Search(key, remove, i, was, removals) := s.ops[t];
    var h, n := hash(key), |s.table|;
    if i < n && s.table[Visit(h, i, n)].ptr != EMPTY {
      if s.table[Visit(h, i, n)].ptr == key {
        assert MeetsFrom(s.table, h, key, i, i);
      } else {
        var s' := SearchVisit(s, hash, t);
        assert s'.ops[t] == Search(key, remove, i + 1, was, removals) && s'.table == s.table;
        SearchOutcome(s', hash, t);
        MetLater(s.table, h, key, i, i + 1);
      }
    }
  }

  /** With unbroken chains that is: exactly when the key is not ahead. */
  lemma AheadIsMet(t: seq<Entry>, hash: nat -> nat, key: nat, i: nat)
    requires HashOk(hash, |t|) && Chained(t, hash) && key >= 2
    ensures Ahead(t, hash, key, i) <==> exists d: nat :: MeetsFrom(t, hash(key), key, i, d)
  {
    if a: nat :| Has(t, a, key) && i <= Distance(hash(key), a, |t|) {
      assert Reachable(t, hash, a);
      assert MeetsFrom(t, hash(key), key, i, Distance(hash(key), a, |t|));
    }
    if d: nat :| MeetsFrom(t, hash(key), key, i, d) {
      var a := Visit(hash(key), d, |t|);
      assert Distance(hash(key), a, |t|) == d;
      assert Has(t, a, key);
    }
  }

  /** A search at step `i` when a reclaim comes misses exactly when the reclaim leaves its key behind
    * step `i` or, if it breaks chains, behind a gap. */
  lemma SearchAcrossReclaim(s: State, hash: nat -> nat, t: nat)
    requires Inv(s, hash) && t in s.ops && s.ops[t].Search?
    ensures var op, swept := s.ops[t], Reclaimed(s.table, hash);
            && (FinishSearch(Swept(s, hash), hash, t).ops[t].Missed? <==> !exists d: nat :: MeetsFrom(swept, hash(op.key), op.key, op.i, d))
            && (Reclaimable(s.table, hash) ==> (FinishSearch(Swept(s, hash), hash, t).ops[t].Missed? <==> !Ahead(swept, hash, op.key, op.i)))
  {
    var op := s.ops[t];
    assert OpOk(s.table, s.removed, hash, op);
    SearchOutcome(Swept(s, hash), hash, t);
    ReclaimKeeps(s.table, hash);
    if Reclaimable(s.table, hash) {
      AheadIsMet(Reclaimed(s.table, hash), hash, op.key, op.i);
    }
  }

  /** Where an insertion ends: in the first free slot from its step on, if there is one. */
  lemma {:induction false} InsertOutcome(s: State, hash: nat -> nat, t: nat) returns (d: nat)
    requires t in s.ops && s.ops[t].Insert? && hash(s.ops[t].key) < |s.table|
    ensures var op, s', n := s.ops[t], FinishInsert(s, hash, t), |s.table|;
            if s'.ops[t].ok then
              && op.i <= d < n && !Live(s.table[Visit(hash(op.key), d, n)])
              && (forall j :: op.i <= j < d ==> Live(s.table[Visit(hash(op.key), j, n)]))
              && s'.table == s.table[Visit(hash(op.key), d, n) := Entry(op.key, op.info)]
            else
              s'.table == s.table && forall j :: op.i <= j < n ==> Live(s.table[Visit(hash(op.key), j, n)])
    decreases |s.table| - s.ops[t].i
  {
    d := s.ops[t].i;
    if InsertVisit(s, hash, t).ops[t].Insert? {
      d := InsertOutcome(InsertVisit(s, hash, t), hash, t);
    }
  }

  /** An insertion at step `i` when a reclaim comes seats its key where it can be found exactly when
    * the slots it has passed are still taken. */
  lemma InsertAcrossReclaim(s: State, hash: nat -> nat, t: nat)
    requires Inv(s, hash) && t in s.ops && s.ops[t].Insert?
    requires FinishInsert(Swept(s, hash), hash, t).ops[t].ok
    ensures var op := s.ops[t];
            (exists d: nat :: MeetsFrom(FinishInsert(Swept(s, hash), hash, t).table, hash(op.key), op.key, 0, d)) <==>
            Unhurt(s.table, s.removed, hash, op)
  {
    var op, swept, n := s.ops[t], Reclaimed(s.table, hash), |s.table|;
    var h := hash(op.key);
    assert OpOk(s.table, s.removed, hash, op);
    SameKeys(s.table, hash, op.key);
    var d := InsertOutcome(Swept(s, hash), hash, t);
    var after := FinishInsert(Swept(s, hash), hash, t).table;
    forall k: nat | k < n && k != d ensures after[Visit(h, k, n)].ptr != op.key && after[Visit(h, k, n)] == swept[Visit(h, k, n)] {
      assert swept[Visit(h, k, n)].ptr == op.key ==> Has(swept, Visit(h, k, n), op.key);
    }
    if Unhurt(s.table, s.removed, hash, op) {
      assert MeetsFrom(after, h, op.key, 0, d);
    }
    if e: nat :| MeetsFrom(after, h, op.key, 0, e) {
      assert e == d;
    }
  }

  // ----- Two runs with an untimely reclaim -----

  predicate NoneWraps(s: State, hash: nat -> nat) {
    forall a :: 0 <= a < |s.table| ==> !Wraps(s.table, hash, a)
  }

  /** Steps during which no entry wraps. */
  ghost predicate FlatSteps(states: seq<State>, acts: seq<Action>, hash: nat -> nat) {
    Steps(states, acts, hash) && forall i :: 0 <= i < |states| ==> NoneWraps(states[i], hash)
  }

  lemma Extend(states: seq<State>, acts: seq<Action>, hash: nat -> nat, s: State, act: Action, s': State)
    returns (states': seq<State>, acts': seq<Action>)
    requires FlatSteps(states, acts, hash) && states[|acts|] == s && Next(s, s', hash, act) && NoneWraps(s', hash)
    ensures FlatSteps(states', acts', hash) && states'[|acts'|] == s'
    ensures states' == states + [s'] && acts' == acts + [act]
  {
    states', acts' := states + [s'], acts + [act];
    forall i | 0 <= i < |acts'| ensures NextAt(states', acts', hash, i) {
      if i < |acts| {
        assert NextAt(states, acts, hash, i);
      }
    }
  }

  const NONE := Info(0, false, 0, 0)
  const GONE := Entry(EMPTY, REMOVED.info)

  /** One key, in the slot after a tombstone. */
  function TwoSlots(): State {
    State([REMOVED, Entry(2, NONE)], 1, map[], multiset{2}, multiset{}, map[2 := NONE])
  }

  function AllToZero(): nat -> nat {
    p => 0
  }

  lemma TwoSlotsHold()
    ensures Inv(TwoSlots(), AllToZero())
  {
    var s := TwoSlots();
    assert Has(s.table, 1, 2);
    ContentsAt(s.table, 1, 2);
    assert s.table[..1] == [REMOVED] && [REMOVED][..0] == [];
    assert Tombstones([REMOVED]) == 1;
    forall k: nat | k != 2 ensures !Present(s.table, k) && k !in Contents(s.table) {
      KeysArePresent(s.table);
    }
  }

  lemma TwoSlotsSwept(s: seq<Entry>)
    requires s == [REMOVED, Entry(2, NONE)]
    ensures Reclaimed(s, AllToZero()) == [Entry(2, NONE), Entry(EMPTY, NONE)]
  {
    var hash, t := AllToZero(), [GONE, Entry(2, NONE)];
    assert Sweep(s, hash, 0) == t;
    assert Sweep(s, hash, 1) == t;
    ReseatIs(t, hash, 1, 0);
    assert Sweep(s, hash, 2) == [Entry(2, NONE), Entry(EMPTY, NONE)];
  }

  lemma LookUpAcross() returns (s1: State, s2: State, s3: State, s4: State)
    ensures Next(TwoSlots(), s1, AllToZero(), BeginSearching(0, 2, false)) && Next(s1, s2, AllToZero(), VisitSlot(0))
    ensures Next(s2, s3, AllToZero(), Sweeping) && Next(s3, s4, AllToZero(), VisitSlot(0))
    ensures NoneWraps(TwoSlots(), AllToZero()) && NoneWraps(s1, AllToZero()) && NoneWraps(s2, AllToZero())
    ensures NoneWraps(s3, AllToZero()) && NoneWraps(s4, AllToZero())
    ensures s1.table == TwoSlots().table && s2.table == TwoSlots().table && s4.table == s3.table && Present(s3.table, 2)
    ensures 0 in s4.ops && s4.ops[0].Missed?
  {
    var hash, s0 := AllToZero(), TwoSlots();
    TwoSlotsSwept(s0.table);
    assert Has(s0.table, 1, 2);
    s1 := s0.(ops := map[0 := Search(2, false, 0, true, 0)]);
    assert s1.ops == s0.ops[0 := Search(2, false, 0, Present(s0.table, 2), s0.removed[2])];
    s2 := SearchVisit(s1, hash, 0);
    assert s2 == s1.(ops := map[0 := Search(2, false, 1, true, 0)]);
    s3 := Swept(s2, hash);
    assert Has(s3.table, 0, 2);
    s4 := SearchVisit(s3, hash, 0);
  }

  /** A lookup begins, visits the tombstone, a reclaim moves the key from the slot ahead to the slot
    * behind, and the lookup misses a key that was in the table all the time. No entry ever wraps. */
  lemma ReclaimBetweenVisitsMisses() returns (states: seq<State>, acts: seq<Action>)
    ensures FlatSteps(states, acts, AllToZero()) && Searches(acts, 0, 2, false, 0, |acts|)
    ensures forall i :: 0 <= i < |states| ==> Present(states[i].table, 2)
    ensures 0 in states[|acts|].ops && states[|acts|].ops[0].Missed?
  {
    var hash := AllToZero();
    TwoSlotsHold();
    assert Has(TwoSlots().table, 1, 2);
    var s1, s2, s3, s4 := LookUpAcross();
    states, acts := [TwoSlots()], [];
    states, acts := Extend(states, acts, hash, TwoSlots(), BeginSearching(0, 2, false), s1);
    states, acts := Extend(states, acts, hash, s1, VisitSlot(0), s2);
    states, acts := Extend(states, acts, hash, s2, Sweeping, s3);
    states, acts := Extend(states, acts, hash, s3, VisitSlot(0), s4);
    PresentInAll(states, TwoSlots(), s1, s2, s3, s4);
  }

  lemma PresentInAll(states: seq<State>, s0: State, s1: State, s2: State, s3: State, s4: State)
    requires states == [s0] + [s1] + [s2] + [s3] + [s4]
    requires Present(s0.table, 2) && Present(s1.table, 2) && Present(s2.table, 2) && Present(s3.table, 2) && Present(s4.table, 2)
    ensures forall i :: 0 <= i < |states| ==> Present(states[i].table, 2)
  {
  }

  /** Two keys in their own slots, out of four. */
  function FourSlots(): State {
    State([Entry(4, NONE), Entry(5, NONE), Entry(EMPTY, NONE), Entry(EMPTY, NONE)], 0, map[],
          multiset{4, 5}, multiset{}, map[4 := NONE, 5 := NONE])
  }

  function ModFour(): nat -> nat {
    p => p % 4
  }

  lemma FourSlotsExplained()
    ensures Unique(FourSlots().table) && Explained(FourSlots())
  {
    var s := FourSlots();
    assert Has(s.table, 0, 4) && Has(s.table, 1, 5);
    ContentsAt(s.table, 0, 4);
    ContentsAt(s.table, 1, 5);
    forall k: nat | k != 4 && k != 5 ensures !Present(s.table, k) && k !in Contents(s.table) {
      KeysArePresent(s.table);
    }
  }

  lemma FourSlotsHold()
    ensures Inv(FourSlots(), ModFour())
  {
    FourSlotsExplained();
    assert NoTombstone(FourSlots().table);
    NoTombstones(FourSlots().table);
  }

  lemma FourSlotsSwept(t: seq<Entry>)
    requires t == [REMOVED, Entry(5, NONE), Entry(EMPTY, NONE), Entry(EMPTY, NONE)]
    ensures Reclaimed(t, ModFour()) == t[0 := GONE]
  {
    var hash, t0 := ModFour(), t[0 := GONE];
    assert Sweep(t, hash, 0) == t0;
    assert Sweep(t, hash, 1) == t0;
    ReseatIs(t0, hash, 1, 1);
    assert Sweep(t, hash, 2) == t0;
    assert Sweep(t, hash, 3) == t0;
    assert Sweep(t, hash, 4) == t0;
  }

  /** The insertion of key 8 passes slot 0; then the key there is removed. */
  lemma PassThenRemove() returns (s1: State, s2: State, s3: State, s4: State)
    ensures Next(FourSlots(), s1, ModFour(), BeginInsertion(0, 8, NONE)) && Next(s1, s2, ModFour(), VisitSlot(0))
    ensures Next(s2, s3, ModFour(), BeginSearching(1, 4, true)) && Next(s3, s4, ModFour(), VisitSlot(1))
    ensures NoneWraps(FourSlots(), ModFour()) && NoneWraps(s1, ModFour()) && NoneWraps(s2, ModFour())
    ensures NoneWraps(s3, ModFour()) && NoneWraps(s4, ModFour())
    ensures 0 in s4.ops && s4.ops[0] == Insert(8, NONE, 1)
    ensures s4.table == [REMOVED, Entry(5, NONE), Entry(EMPTY, NONE), Entry(EMPTY, NONE)]
  {
    var hash, s0 := ModFour(), FourSlots();
    s1 := s0.(ops := s0.ops[0 := Insert(8, NONE, 0)]);
    s2 := InsertVisit(s1, hash, 0);
    assert s2 == s1.(ops := s1.ops[0 := Insert(8, NONE, 1)]);
    assert Has(s2.table, 0, 4);
    s3 := s2.(ops := s2.ops[1 := Search(4, true, 0, true, 0)]);
    s4 := SearchVisit(s3, hash, 1);
  }

  /** A reclaim clears slot 0, and the insertion goes on from slot 1. */
  lemma SweepThenSeat(s4: State) returns (s5: State, s6: State, s7: State)
    requires 0 in s4.ops && s4.ops[0] == Insert(8, NONE, 1)
    requires s4.table == [REMOVED, Entry(5, NONE), Entry(EMPTY, NONE), Entry(EMPTY, NONE)]
    ensures Next(s4, s5, ModFour(), Sweeping) && Next(s5, s6, ModFour(), VisitSlot(0)) && Next(s6, s7, ModFour(), VisitSlot(0))
    ensures NoneWraps(s5, ModFour()) && NoneWraps(s6, ModFour()) && NoneWraps(s7, ModFour())
    ensures 0 in s7.ops && s7.ops[0] == Inserted(8, true)
    ensures s7.table == [GONE, Entry(5, NONE), Entry(8, NONE), Entry(EMPTY, NONE)]
  {
    FourSlotsSwept(s4.table);
    s5 := Swept(s4, ModFour());
    s6 := InsertVisit(s5, ModFour(), 0);
    assert s6.ops[0] == Insert(8, NONE, 2) && s6.table == s5.table;
    s7 := InsertVisit(s6, ModFour(), 0);
  }

  /** Worse, and without any wrapped entry either: an insertion passes a live slot, the slot is
    * emptied by a removal and a reclaim, and the key is seated behind the gap. It is in the table,
    * and no search ever finds it there. */
  lemma ReclaimBetweenVisitsLoses() returns (states: seq<State>, acts: seq<Action>)
    ensures FlatSteps(states, acts, ModFour())
    ensures var last := states[|acts|];
            && 0 in last.ops && last.ops[0] == Inserted(8, true)
            && Present(last.table, 8) && !exists d: nat :: MeetsFrom(last.table, ModFour()(8), 8, 0, d)
  {
    var hash := ModFour();
    FourSlotsHold();
    var s1, s2, s3, s4 := PassThenRemove();
    var s5, s6, s7 := SweepThenSeat(s4);
    states, acts := [FourSlots()], [];
    states, acts := Extend(states, acts, hash, FourSlots(), BeginInsertion(0, 8, NONE), s1);
    states, acts := Extend(states, acts, hash, s1, VisitSlot(0), s2);
    states, acts := Extend(states, acts, hash, s2, BeginSearching(1, 4, true), s3);
    states, acts := Extend(states, acts, hash, s3, VisitSlot(1), s4);
    states, acts := Extend(states, acts, hash, s4, Sweeping, s5);
    states, acts := Extend(states, acts, hash, s5, VisitSlot(0), s6);
    states, acts := Extend(states, acts, hash, s6, VisitSlot(0), s7);
    BehindAGap(s7.table);
  }

  lemma BehindAGap(t: seq<Entry>)
    requires t == [GONE, Entry(5, NONE), Entry(8, NONE), Entry(EMPTY, NONE)]
    ensures Present(t, 8) && !exists d: nat :: MeetsFrom(t, ModFour()(8), 8, 0, d)
  {
    assert Has(t, 2, 8);
    assert t[Visit(0, 0, 4)].ptr == EMPTY;
  }
}
