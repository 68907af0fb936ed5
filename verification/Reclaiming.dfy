/** Reclaiming tombstones: what the sweep does to the table, and exactly when no key is lost. */
module Reclaiming {
  import opened ProbeTables

  // ----- Reclaiming tombstones: sweep the table and seat every live entry again -----

  function Cleared(t: seq<Entry>): (r: seq<Entry>)
    ensures |r| == |t|
    ensures forall s :: 0 <= s < |t| ==> r[s] == if t[s].ptr == TOMBSTONE then t[s].(ptr := EMPTY) else t[s]
  {
    seq(|t|, s requires 0 <= s < |t| => if t[s].ptr == TOMBSTONE then t[s].(ptr := EMPTY) else t[s])
  }

  /** The first empty slot of the probe sequence, from step `j` on. */
  function Seat(t: seq<Entry>, h: nat, j: nat): (s: nat)
    requires h < |t| && j < |t|
    requires exists k :: j <= k < |t| && t[Visit(h, k, |t|)].ptr == EMPTY
    ensures s < |t| && t[s].ptr == EMPTY
    ensures Distance(h, s, |t|) >= j
    ensures forall i :: j <= i < Distance(h, s, |t|) ==> t[Visit(h, i, |t|)].ptr != EMPTY
    decreases |t| - j
  {
    if t[Visit(h, j, |t|)].ptr == EMPTY then Visit(h, j, |t|) else Seat(t, h, j + 1)
  }

  lemma EmptySeats(t: seq<Entry>, h: nat, s: nat)
    requires h < |t| && s < |t| && t[s].ptr == EMPTY
    ensures exists k :: 0 <= k < |t| && t[Visit(h, k, |t|)].ptr == EMPTY
  {
    assert t[Visit(h, Distance(h, s, |t|), |t|)].ptr == EMPTY;
  }

  /** Take the entry out of slot `i`, if there is one, and seat it again. */
  ghost function Reseat(t: seq<Entry>, hash: nat -> nat, i: nat): (r: seq<Entry>)
    requires HashOk(hash, |t|) && i < |t|
    ensures |r| == |t|
  {
    if !Live(t[i]) then t else
      var out := t[i := t[i].(ptr := EMPTY)];
      EmptySeats(out, hash(t[i].ptr), i);
      out[Seat(out, hash(t[i].ptr), 0) := t[i]]
  }

  ghost function Sweep(t: seq<Entry>, hash: nat -> nat, i: nat): (r: seq<Entry>)
    requires HashOk(hash, |t|) && i <= |t|
    ensures |r| == |t|
  {
    if i == 0 then Cleared(t) else Reseat(Sweep(t, hash, i - 1), hash, i - 1)
  }

  ghost function Reclaimed(t: seq<Entry>, hash: nat -> nat): (r: seq<Entry>)
    requires HashOk(hash, |t|)
    ensures |r| == |t|
  {
    Sweep(t, hash, |t|)
  }

  /** Moving an entry to a free slot, after giving up its own, changes no content. */
  lemma MoveKeeps(t: seq<Entry>, i: nat, out: seq<Entry>, x: nat)
    requires Unique(t) && i < |t| && Live(t[i]) && out == t[i := t[i].(ptr := EMPTY)]
    requires x < |t| && out[x].ptr == EMPTY
    ensures Unique(out[x := t[i]]) && Contents(out[x := t[i]]) == Contents(t)
  {
    var key := t[i].ptr;
    ContentsDrop(t, i, out[i]);
    ContentsAdd(out, x, t[i]);
    assert Has(t, i, key);
    ContentsAt(t, i, key);
    PutBack(Contents(t), key);
  }

  lemma PutBack(m: map<nat, Info>, key: nat)
    requires key in m
    ensures (m - {key})[key := m[key]] == m
  {
  }

  lemma ReseatKeeps(t: seq<Entry>, hash: nat -> nat, i: nat)
    requires HashOk(hash, |t|) && i < |t| && Unique(t)
    ensures Unique(Reseat(t, hash, i)) && Contents(Reseat(t, hash, i)) == Contents(t)
  {
    if Live(t[i]) {
      var out := t[i := t[i].(ptr := EMPTY)];
      EmptySeats(out, hash(t[i].ptr), i);
      MoveKeeps(t, i, out, Seat(out, hash(t[i].ptr), 0));
    }
  }

  predicate NoTombstone(t: seq<Entry>) {
    forall s :: 0 <= s < |t| ==> t[s].ptr != TOMBSTONE
  }

  lemma {:induction false} SweepClears(t: seq<Entry>, hash: nat -> nat, i: nat)
    requires HashOk(hash, |t|) && i <= |t|
    ensures NoTombstone(Sweep(t, hash, i))
  {
    if i > 0 {
      SweepClears(t, hash, i - 1);
    }
  }

  lemma ClearedKeeps(t: seq<Entry>)
    requires Unique(t)
    ensures Unique(Cleared(t)) && Contents(Cleared(t)) == Contents(t)
  {
    forall a | 0 <= a < |t| && Live(Cleared(t)[a])
      ensures Cleared(t)[a].ptr in Contents(t) && Contents(t)[Cleared(t)[a].ptr] == Cleared(t)[a].info
    {
      assert Has(t, a, t[a].ptr);
      ContentsAt(t, a, t[a].ptr);
    }
    forall k | k in Contents(t) ensures Present(Cleared(t), k) {
      assert Has(Cleared(t), Where(t, k), k);
    }
    ContentsIs(Cleared(t), Contents(t));
  }

  lemma {:induction false} SweepKeeps(t: seq<Entry>, hash: nat -> nat, i: nat)
    requires HashOk(hash, |t|) && i <= |t| && Unique(t)
    ensures Unique(Sweep(t, hash, i)) && Contents(Sweep(t, hash, i)) == Contents(t)
  {
    if i == 0 {
      ClearedKeeps(t);
    } else {
      SweepKeeps(t, hash, i - 1);
      var before := Sweep(t, hash, i - 1);
      ReseatKeeps(before, hash, i - 1);
      assert Sweep(t, hash, i) == Reseat(before, hash, i - 1);
    }
  }

  /** The entry's probe path runs past the end of the table. */
  predicate Wraps(t: seq<Entry>, hash: nat -> nat, s: nat)
    requires s < |t|
  {
    Live(t[s]) && s < hash(t[s].ptr)
  }

  /** A swept entry has no gap before it, on its side of the end of the table. */
  predicate Compact(t: seq<Entry>, hash: nat -> nat, s: nat)
    requires s < |t|
  {
    forall k :: (if Wraps(t, hash, s) then 0 else hash(t[s].ptr)) <= k < s ==> t[k].ptr != EMPTY
  }

  lemma ReseatCompacts(t: seq<Entry>, hash: nat -> nat, i: nat)
    requires HashOk(hash, |t|) && i < |t|
    requires forall s :: 0 <= s < i && Live(t[s]) ==> Compact(t, hash, s)
    ensures forall s :: 0 <= s <= i && Live(Reseat(t, hash, i)[s]) ==> Compact(Reseat(t, hash, i), hash, s)
  {
    var r := Reseat(t, hash, i);
    if Live(t[i]) {
      var h := hash(t[i].ptr);
      var out := t[i := t[i].(ptr := EMPTY)];
      EmptySeats(out, h, i);
      var x := Seat(out, h, 0);
      SeatPath(out, h, x, i);
      forall s | 0 <= s <= i && Live(r[s]) ensures Compact(r, hash, s) {
        if s != x {
          assert Compact(t, hash, s);
        }
      }
    } else {
      assert forall s :: 0 <= s <= i && Live(r[s]) ==> s < i && Compact(t, hash, s);
    }
  }

  /** The slots passed over on the way to the seat are taken; the seat is not past slot `i`. */
  lemma SeatPath(out: seq<Entry>, h: nat, x: nat, i: nat)
    requires h < |out| && x < |out| && i < |out| && out[i].ptr == EMPTY && out[x].ptr == EMPTY
    requires forall j :: 0 <= j < Distance(h, x, |out|) ==> out[Visit(h, j, |out|)].ptr != EMPTY
    ensures forall k :: (if x < h then 0 else h) <= k < x ==> out[k].ptr != EMPTY
    ensures x < h ==> forall k :: h <= k < |out| ==> out[k].ptr != EMPTY
    ensures h <= i ==> h <= x <= i
    ensures i < h ==> x <= i || h <= x
  {
    var n := |out|;
    forall k | 0 <= k < n && Distance(h, k, n) < Distance(h, x, n) ensures out[k].ptr != EMPTY {
      assert out[Visit(h, Distance(h, k, n), n)].ptr != EMPTY;
    }
  }

  lemma {:induction false} SweepCompacts(t: seq<Entry>, hash: nat -> nat, i: nat)
    requires HashOk(hash, |t|) && i <= |t|
    ensures forall s :: 0 <= s < i && Live(Sweep(t, hash, i)[s]) ==> Compact(Sweep(t, hash, i), hash, s)
  {
    if i > 0 {
      SweepCompacts(t, hash, i - 1);
      ReseatCompacts(Sweep(t, hash, i - 1), hash, i - 1);
    }
  }

  /** The entry keeps its probe path full up to the end of the table. */
  predicate HighSideFull(t: seq<Entry>, hash: nat -> nat, s: nat)
    requires s < |t|
  {
    forall k :: hash(t[s].ptr) <= k < |t| ==> t[k].ptr != EMPTY
  }

  lemma CompactIsReachable(t: seq<Entry>, hash: nat -> nat, s: nat)
    requires HashOk(hash, |t|) && s < |t| && Live(t[s]) && Compact(t, hash, s)
    ensures Reachable(t, hash, s) <==> (Wraps(t, hash, s) ==> HighSideFull(t, hash, s))
  {
    var h, n := hash(t[s].ptr), |t|;
    if Wraps(t, hash, s) {
      if Reachable(t, hash, s) {
        forall k | h <= k < n ensures t[k].ptr != EMPTY {
          assert Visit(h, k - h, n) == k;
        }
      }
    }
  }

  // ----- Exactly when a reclaim keeps every key findable -----

  /** Some slot from `h` up to the end of the table is empty. */
  predicate Gap(t: seq<Entry>, h: nat) {
    exists k :: h <= k < |t| && t[k].ptr == EMPTY
  }

  /** The first empty slot from `h` up. */
  function FirstGap(t: seq<Entry>, h: nat): (s: nat)
    requires Gap(t, h)
    ensures h <= s < |t| && t[s].ptr == EMPTY && !exists k :: h <= k < s && t[k].ptr == EMPTY
    decreases |t| - h
  {
    if t[h].ptr == EMPTY then h else FirstGap(t, h + 1)
  }

  /** An entry that wraps moves to the first empty slot on its own side of the table's end, if any. */
  function Unwrap(t: seq<Entry>, hash: nat -> nat, i: nat): (r: seq<Entry>)
    requires i < |t|
    ensures |r| == |t|
  {
    if Wraps(t, hash, i) && Gap(t, hash(t[i].ptr)) then
      t[i := t[i].(ptr := EMPTY)][FirstGap(t, hash(t[i].ptr)) := t[i]]
    else t
  }

  /** The table without tombstones once the entries that wrap in the first `i` slots have moved. */
  function Unwrapped(t: seq<Entry>, hash: nat -> nat, i: nat): (r: seq<Entry>)
    requires i <= |t|
    ensures |r| == |t|
  {
    if i == 0 then Cleared(t) else Unwrap(Unwrapped(t, hash, i - 1), hash, i - 1)
  }

  predicate Full(t: seq<Entry>) {
    forall k :: 0 <= k < |t| ==> Live(t[k])
  }

  /** From slot `a` up every slot is taken, by an entry hashed to `a` or above and not past its slot. */
  predicate Solid(t: seq<Entry>, hash: nat -> nat, a: nat) {
    a <= |t| && forall k :: a <= k < |t| ==> Live(t[k]) && a <= hash(t[k].ptr) <= k
  }

  /** Each entry that wraps and finds no empty slot on its own side hashes into a solid upper part. */
  ghost predicate Reclaimable(t: seq<Entry>, hash: nat -> nat) {
    var u := Unwrapped(t, hash, |t|);
    Full(u) || forall s :: 0 <= s < |u| && Wraps(u, hash, s) ==> exists a :: 0 <= a <= hash(u[s].ptr) && Solid(u, hash, a)
  }

  /** The entries that wrap in the first `i` slots. */
  function Wrapped(t: seq<Entry>, hash: nat -> nat, i: nat): set<Entry>
    requires i <= |t|
  {
    set s | 0 <= s < i && Wraps(t, hash, s) :: t[s]
  }

  /** What one reseating does: an entry that does not wrap moves down, one that does moves up if it can. */
  lemma ReseatShape(t: seq<Entry>, hash: nat -> nat, i: nat) returns (x: nat)
    requires HashOk(hash, |t|) && i < |t| && Live(t[i])
    ensures x < |t| && (x == i || t[x].ptr == EMPTY)
    ensures Reseat(t, hash, i) == t[i := t[i].(ptr := EMPTY)][x := t[i]]
    ensures !Wraps(t, hash, i) ==> hash(t[i].ptr) <= x <= i
    ensures Wraps(t, hash, i) && Gap(t, hash(t[i].ptr)) ==> x == FirstGap(t, hash(t[i].ptr))
    ensures Wraps(t, hash, i) && !Gap(t, hash(t[i].ptr)) ==> x <= i
  {
    var h := hash(t[i].ptr);
    var out := t[i := t[i].(ptr := EMPTY)];
    EmptySeats(out, h, i);
    x := Seat(out, h, 0);
    SeatPath(out, h, x, i);
    if Wraps(t, hash, i) && Gap(t, h) {
      assert out[FirstGap(t, h)].ptr == EMPTY;
    }
  }

  lemma WrappedMoved(t: seq<Entry>, hash: nat -> nat, i: nat, x: nat, r: seq<Entry>)
    requires i < |t| && x < |t| && Live(t[i]) && (x == i || t[x].ptr == EMPTY)
    requires r == t[i := t[i].(ptr := EMPTY)][x := t[i]]
    ensures Wrapped(r, hash, i + 1) == Wrapped(t, hash, i) + if x <= i && x < hash(t[i].ptr) then {t[i]} else {}
  {
    forall e | e in Wrapped(t, hash, i) ensures e in Wrapped(r, hash, i + 1) {
      var s :| 0 <= s < i && Wraps(t, hash, s) && t[s] == e;
      assert Wraps(r, hash, s) && r[s] == e;
    }
    forall e | e in Wrapped(r, hash, i + 1) ensures e in Wrapped(t, hash, i) || (e == t[i] && x <= i && x < hash(e.ptr)) {
      var s :| 0 <= s < i + 1 && Wraps(r, hash, s) && r[s] == e;
      assert s != x ==> s < i && Wraps(t, hash, s) && t[s] == e;
    }
    assert x <= i && x < hash(t[i].ptr) ==> Wraps(r, hash, x) && r[x] == t[i];
  }

  lemma WrappedNext(t: seq<Entry>, hash: nat -> nat, i: nat)
    requires i < |t|
    ensures Wrapped(t, hash, i + 1) == Wrapped(t, hash, i) + if Wraps(t, hash, i) then {t[i]} else {}
  {
  }

  /** A reseating and a move up agree on the slots still to come, and on which entries wrap. */
  lemma StepsMatch(t: seq<Entry>, u: seq<Entry>, hash: nat -> nat, i: nat)
    requires HashOk(hash, |t|) && |u| == |t| && i < |t|
    requires forall k :: i <= k < |t| ==> t[k] == u[k]
    requires Wrapped(t, hash, i) == Wrapped(u, hash, i)
    ensures forall k :: i < k < |t| ==> Reseat(t, hash, i)[k] == Unwrap(u, hash, i)[k]
    ensures Wrapped(Reseat(t, hash, i), hash, i + 1) == Wrapped(Unwrap(u, hash, i), hash, i + 1)
  {
    WrappedNext(t, hash, i);
    WrappedNext(u, hash, i);
    if Live(t[i]) {
      var x := ReseatShape(t, hash, i);
      WrappedMoved(t, hash, i, x, Reseat(t, hash, i));
      if Wraps(t, hash, i) && Gap(t, hash(t[i].ptr)) {
        assert u[x].ptr == EMPTY;
        WrappedMoved(u, hash, i, x, Unwrap(u, hash, i));
      }
    }
  }

  lemma {:induction false} SweepMatches(t: seq<Entry>, hash: nat -> nat, i: nat)
    requires HashOk(hash, |t|) && i <= |t|
    ensures forall k :: i <= k < |t| ==> Sweep(t, hash, i)[k] == Unwrapped(t, hash, i)[k]
    ensures Wrapped(Sweep(t, hash, i), hash, i) == Wrapped(Unwrapped(t, hash, i), hash, i)
  {
    if i > 0 {
      SweepMatches(t, hash, i - 1);
      StepsMatch(Sweep(t, hash, i - 1), Unwrapped(t, hash, i - 1), hash, i - 1);
    }
  }

  lemma {:induction false} SweepFills(t: seq<Entry>, hash: nat -> nat, i: nat)
    requires HashOk(hash, |t|) && i <= |t|
    ensures Full(Sweep(t, hash, i)) <==> Full(Cleared(t))
    ensures Full(Unwrapped(t, hash, i)) <==> Full(Cleared(t))
  {
    if i > 0 {
      SweepFills(t, hash, i - 1);
      var before, above := Sweep(t, hash, i - 1), Unwrapped(t, hash, i - 1);
      if Live(before[i - 1]) {
        var x := ReseatShape(before, hash, i - 1);
        MoveFills(before, i - 1, x, Reseat(before, hash, i - 1));
      }
      if Wraps(above, hash, i - 1) && Gap(above, hash(above[i - 1].ptr)) {
        MoveFills(above, i - 1, FirstGap(above, hash(above[i - 1].ptr)), Unwrap(above, hash, i - 1));
      }
    }
  }

  lemma MoveFills(t: seq<Entry>, i: nat, x: nat, r: seq<Entry>)
    requires i < |t| && x < |t| && Live(t[i]) && (x == i || t[x].ptr == EMPTY)
    requires r == t[i := t[i].(ptr := EMPTY)][x := t[i]]
    ensures Full(r) <==> Full(t)
  {
    assert x != i ==> !Live(r[i]) && !Live(t[x]);
    assert x == i ==> r == t;
  }

  // A solid upper part is never touched.

  lemma {:induction false} SolidUnwrapped(t: seq<Entry>, hash: nat -> nat, a: nat, i: nat)
    requires HashOk(hash, |t|) && a <= i <= |t| && Solid(Unwrapped(t, hash, |t|), hash, a)
    ensures Unwrapped(t, hash, i) == Unwrapped(t, hash, |t|)
    decreases |t| - i
  {
    if i < |t| {
      SolidUnwrapped(t, hash, a, i + 1);
      var before := Unwrapped(t, hash, i);
      assert Unwrap(before, hash, i) == Unwrapped(t, hash, i + 1);
      assert Unwrap(before, hash, i)[i].ptr != EMPTY;
    }
  }

  lemma {:induction false} SolidStays(t: seq<Entry>, hash: nat -> nat, a: nat, i: nat)
    requires HashOk(hash, |t|) && a <= i <= |t| && Solid(Unwrapped(t, hash, |t|), hash, a)
    ensures forall k :: a <= k < |t| ==> Sweep(t, hash, i)[k] == Unwrapped(t, hash, |t|)[k]
  {
    if i == a {
      SolidUnwrapped(t, hash, a, a);
      SweepMatches(t, hash, a);
    } else {
      SolidStays(t, hash, a, i - 1);
      var x := ReseatShape(Sweep(t, hash, i - 1), hash, i - 1);
    }
  }

  // And conversely: an upper part left without a gap was solid, if anything below it is empty.

  lemma {:induction false} FullSideIdles(t: seq<Entry>, hash: nat -> nat, a: nat, i: nat)
    requires HashOk(hash, |t|) && a <= i <= |t|
    requires forall k :: a <= k < |t| ==> Reclaimed(t, hash)[k].ptr != EMPTY
    ensures Sweep(t, hash, i) == Reclaimed(t, hash)
    decreases |t| - i
  {
    if i < |t| {
      FullSideIdles(t, hash, a, i + 1);
      var before := Sweep(t, hash, i);
      if Live(before[i]) {
        var x := ReseatShape(before, hash, i);
        assert Reseat(before, hash, i) == Sweep(t, hash, i + 1);
        assert Reseat(before, hash, i)[i].ptr != EMPTY;
      }
    }
  }

  lemma FullSideIsSolid(t: seq<Entry>, hash: nat -> nat, a: nat)
    requires HashOk(hash, |t|) && 0 < a <= |t| && Reclaimed(t, hash)[a - 1].ptr == EMPTY
    requires forall k :: a <= k < |t| ==> Reclaimed(t, hash)[k].ptr != EMPTY
    ensures Solid(Reclaimed(t, hash), hash, a)
  {
    var r := Reclaimed(t, hash);
    SweepClears(t, hash, |t|);
    SweepCompacts(t, hash, |t|);
    forall k | a <= k < |t| ensures Live(r[k]) && a <= hash(r[k].ptr) <= k {
      assert Compact(r, hash, k);
    }
  }

  lemma {:induction false} SolidBefore(t: seq<Entry>, hash: nat -> nat, a: nat, i: nat)
    requires HashOk(hash, |t|) && a <= i <= |t| && Solid(Reclaimed(t, hash), hash, a)
    ensures forall k :: a <= k < |t| ==> Unwrapped(t, hash, i)[k] == Reclaimed(t, hash)[k]
  {
    if i == a {
      FullSideIdles(t, hash, a, a);
      SweepMatches(t, hash, a);
    } else {
      SolidBefore(t, hash, a, i - 1);
    }
  }

  /** The lower end of the taken slots that reach from `h` to the end of the table. */
  function LowEnd(t: seq<Entry>, h: nat): (a: nat)
    requires h <= |t| && forall k :: h <= k < |t| ==> t[k].ptr != EMPTY
    ensures a <= h && forall k :: a <= k < |t| ==> t[k].ptr != EMPTY
    ensures a == 0 || t[a - 1].ptr == EMPTY
  {
    if h == 0 || t[h - 1].ptr == EMPTY then h else LowEnd(t, h - 1)
  }

  /** Reclaiming keeps exactly the live entries and leaves no tombstone, always. It keeps every key
    * findable if and only if the table is reclaimable. */
  lemma ReclaimKeeps(t: seq<Entry>, hash: nat -> nat)
    requires HashOk(hash, |t|) && Unique(t)
    ensures Unique(Reclaimed(t, hash)) && Contents(Reclaimed(t, hash)) == Contents(t) && NoTombstone(Reclaimed(t, hash))
    ensures Chained(Reclaimed(t, hash), hash) <==> Reclaimable(t, hash)
  {
    SweepKeeps(t, hash, |t|);
    SweepClears(t, hash, |t|);
    if Reclaimable(t, hash) {
      ReclaimableKeeps(t, hash);
    }
    if Chained(Reclaimed(t, hash), hash) {
      KeptWasReclaimable(t, hash);
    }
  }

  lemma ReclaimedIsChained(t: seq<Entry>, hash: nat -> nat)
    requires HashOk(hash, |t|)
    ensures Chained(Reclaimed(t, hash), hash) <==>
              forall s :: 0 <= s < |t| && Wraps(Reclaimed(t, hash), hash, s) ==> HighSideFull(Reclaimed(t, hash), hash, s)
  {
    var r := Reclaimed(t, hash);
    SweepCompacts(t, hash, |t|);
    forall s | 0 <= s < |t| && Live(r[s])
      ensures Reachable(r, hash, s) <==> (Wraps(r, hash, s) ==> HighSideFull(r, hash, s))
    {
      CompactIsReachable(r, hash, s);
    }
  }

  lemma ReclaimableKeeps(t: seq<Entry>, hash: nat -> nat)
    requires HashOk(hash, |t|) && Reclaimable(t, hash)
    ensures Chained(Reclaimed(t, hash), hash)
  {
    var r, u := Reclaimed(t, hash), Unwrapped(t, hash, |t|);
    ReclaimedIsChained(t, hash);
    SweepMatches(t, hash, |t|);
    SweepFills(t, hash, |t|);
    forall s | 0 <= s < |t| && Wraps(r, hash, s) ensures HighSideFull(r, hash, s) {
      if !Full(u) {
        assert r[s] in Wrapped(u, hash, |t|);
        var s' :| 0 <= s' < |t| && Wraps(u, hash, s') && u[s'] == r[s];
        var a :| 0 <= a <= hash(u[s'].ptr) && Solid(u, hash, a);
        SolidStays(t, hash, a, |t|);
      }
    }
  }

  lemma KeptWasReclaimable(t: seq<Entry>, hash: nat -> nat)
    requires HashOk(hash, |t|) && Chained(Reclaimed(t, hash), hash)
    ensures Reclaimable(t, hash)
  {
    var u := Unwrapped(t, hash, |t|);
    SweepFills(t, hash, |t|);
    if !Full(u) {
      forall s | 0 <= s < |u| && Wraps(u, hash, s) ensures exists a :: 0 <= a <= hash(u[s].ptr) && Solid(u, hash, a) {
        var a := KeptIsSolid(t, hash, s);
      }
    }
  }

  lemma KeptIsSolid(t: seq<Entry>, hash: nat -> nat, s: nat) returns (a: nat)
    requires HashOk(hash, |t|) && Chained(Reclaimed(t, hash), hash) && !Full(Reclaimed(t, hash))
    requires s < |t| && Wraps(Unwrapped(t, hash, |t|), hash, s)
    ensures a <= hash(Unwrapped(t, hash, |t|)[s].ptr) && Solid(Unwrapped(t, hash, |t|), hash, a)
  {
    var r, u := Reclaimed(t, hash), Unwrapped(t, hash, |t|);
    ReclaimedIsChained(t, hash);
    SweepMatches(t, hash, |t|);
    SweepClears(t, hash, |t|);
    assert u[s] in Wrapped(r, hash, |t|);
    var s' :| 0 <= s' < |t| && Wraps(r, hash, s') && r[s'] == u[s];
    a := LowEnd(r, hash(r[s'].ptr));
    FullSideIsSolid(t, hash, a);
    SolidBefore(t, hash, a, |t|);
  }

  /** Nothing moves across the end of the table if no entry wraps. */
  lemma NoWrapIsReclaimable(t: seq<Entry>, hash: nat -> nat)
    requires HashOk(hash, |t|) && forall s :: 0 <= s < |t| ==> !Wraps(t, hash, s)
    ensures Reclaimable(t, hash)
  {
    NothingUnwraps(t, hash, |t|);
    forall s | 0 <= s < |t| ensures !Wraps(Cleared(t), hash, s) {
      assert !Wraps(t, hash, s);
    }
  }

  lemma {:induction false} NothingUnwraps(t: seq<Entry>, hash: nat -> nat, i: nat)
    requires HashOk(hash, |t|) && i <= |t|
    requires forall s :: 0 <= s < |t| && Wraps(t, hash, s) ==> !Gap(Cleared(t), hash(t[s].ptr))
    ensures Unwrapped(t, hash, i) == Cleared(t)
  {
    if i > 0 {
      NothingUnwraps(t, hash, i - 1);
      assert Wraps(Cleared(t), hash, i - 1) ==> Wraps(t, hash, i - 1);
    }
  }

  /** The run of slots that crosses the end of the table: everything above the empty slot `e`, and
    * the first slots, up to one below `low`. It has no gap and no tombstone, and no other entry wraps. */
  ghost predicate Settled(t: seq<Entry>, hash: nat -> nat, e: nat, low: nat) {
    && low <= e < |t| && t[e].ptr == EMPTY
    && (forall k :: 0 <= k < low || e < k < |t| ==> Live(t[k]))
    && (forall s :: 0 <= s < |t| && Wraps(t, hash, s) ==> s < low && e < hash(t[s].ptr))
  }

  /** A settled run is reclaimable, whatever tombstones lie elsewhere. */
  lemma SettledReclaimKeeps(t: seq<Entry>, hash: nat -> nat, e: nat, low: nat)
    requires HashOk(hash, |t|) && Unique(t) && Chained(t, hash) && Settled(t, hash, e, low)
    ensures Reclaimable(t, hash) && Chained(Reclaimed(t, hash), hash)
  {
    NothingUnwraps(t, hash, |t|);
    var u := Cleared(t);
    forall k | e < k < |t| ensures Live(u[k]) && e + 1 <= hash(u[k].ptr) <= k {
      assert Reachable(t, hash, k);
      assert !Wraps(t, hash, k);
      assert t[Visit(hash(t[k].ptr), Distance(hash(t[k].ptr), e, |t|), |t|)].ptr == EMPTY;
      assert Distance(hash(t[k].ptr), k, |t|) <= Distance(hash(t[k].ptr), e, |t|);
    }
    assert Solid(u, hash, e + 1);
    forall s | 0 <= s < |t| && Wraps(u, hash, s) ensures e + 1 <= hash(u[s].ptr) {
      assert Wraps(t, hash, s);
    }
    ReclaimKeeps(t, hash);
  }

  /** The seat is the empty slot that nothing empty precedes. */
  lemma SeatIs(t: seq<Entry>, h: nat, x: nat)
    requires h < |t| && x < |t| && t[x].ptr == EMPTY
    requires forall j :: 0 <= j < Distance(h, x, |t|) ==> t[Visit(h, j, |t|)].ptr != EMPTY
    requires exists k :: 0 <= k < |t| && t[Visit(h, k, |t|)].ptr == EMPTY
    ensures Seat(t, h, 0) == x
  {
    var y := Seat(t, h, 0);
    assert t[Visit(h, Distance(h, x, |t|), |t|)] == t[x];
    assert t[Visit(h, Distance(h, y, |t|), |t|)] == t[y];
  }

  /** Without tombstones there is nothing to reclaim, and no entry moves, wrapped or not. */
  lemma {:induction false} SweepIdles(t: seq<Entry>, hash: nat -> nat, i: nat)
    requires HashOk(hash, |t|) && i <= |t| && Chained(t, hash) && NoTombstone(t)
    ensures Sweep(t, hash, i) == t
  {
    if i > 0 {
      SweepIdles(t, hash, i - 1);
      if Live(t[i - 1]) {
        assert Reachable(t, hash, i - 1);
        ReseatIdles(t, hash, i - 1);
      }
    }
  }

  /** An entry with no gap before it goes back to its own slot. */
  lemma ReseatIdles(t: seq<Entry>, hash: nat -> nat, i: nat)
    requires HashOk(hash, |t|) && i < |t| && Live(t[i]) && Reachable(t, hash, i)
    ensures Reseat(t, hash, i) == t
  {
    var h := hash(t[i].ptr);
    var out := t[i := t[i].(ptr := EMPTY)];
    EmptySeats(out, h, i);
    SeatIs(out, h, i);
  }

  /** What one reseating does, given where the first gap is. */
  lemma ReseatIs(t: seq<Entry>, hash: nat -> nat, i: nat, x: nat)
    requires HashOk(hash, |t|) && i < |t| && x < |t| && Live(t[i]) && (x == i || t[x].ptr == EMPTY)
    requires forall j :: 0 <= j < Distance(hash(t[i].ptr), x, |t|) ==>
               Visit(hash(t[i].ptr), j, |t|) != i && t[Visit(hash(t[i].ptr), j, |t|)].ptr != EMPTY
    ensures Reseat(t, hash, i) == t[i := t[i].(ptr := EMPTY)][x := t[i]]
  {
    var out := t[i := t[i].(ptr := EMPTY)];
    EmptySeats(out, hash(t[i].ptr), i);
    SeatIs(out, hash(t[i].ptr), x);
  }

  /** Eight slots: C, hashed to 6, wraps to slot 0; A and B sit one slot late because of slot 5. */
  function Example(slot5: nat): seq<Entry> {
    var none := Info(0, false, 0, 0);
    var o := Entry(EMPTY, none);
    [Entry(22, none), o, o, o, o, Entry(slot5, none), Entry(13, none), Entry(14, none)]
  }

  function ExampleHash(): nat -> nat {
    p => p % 8
  }

  lemma ExampleHolds()
    ensures HashOk(ExampleHash(), 8) && Unique(Example(TOMBSTONE)) && Chained(Example(TOMBSTONE), ExampleHash())
  {
    var t, hash := Example(TOMBSTONE), ExampleHash();
    forall s | 0 <= s < 8 && Live(t[s]) ensures Reachable(t, hash, s) {
      ExampleReachable(t, hash, s);
    }
  }

  lemma ExampleReachable(t: seq<Entry>, hash: nat -> nat, s: nat)
    requires t == Example(TOMBSTONE) && hash == ExampleHash() && s in {0, 6, 7}
    ensures Reachable(t, hash, s)
  {
    assert hash(22) == 6 && hash(13) == 5 && hash(14) == 6;
  }

  lemma ExampleSweep()
    requires HashOk(ExampleHash(), 8)
    ensures Sweep(Example(TOMBSTONE), ExampleHash(), 6) == Example(EMPTY)
  {
    var t, hash := Example(TOMBSTONE), ExampleHash();
    assert Sweep(t, hash, 0) == Example(EMPTY);
    ReseatIs(Example(EMPTY), hash, 0, 0);
    assert Sweep(t, hash, 1) == Example(EMPTY);
    assert Sweep(t, hash, 2) == Example(EMPTY);
    assert Sweep(t, hash, 3) == Example(EMPTY);
    assert Sweep(t, hash, 4) == Example(EMPTY);
    assert Sweep(t, hash, 5) == Example(EMPTY);
  }

  /** A wrapped entry can be lost: in this table of eight slots, with a tombstone in slot 5, A and B
    * move down by one, slot 7 is left empty, and C, hashed to 6 and stored in slot 0, cannot be found. */
  lemma WrappedReclaimLosesKey()
    ensures HashOk(ExampleHash(), 8) && Unique(Example(TOMBSTONE)) && Chained(Example(TOMBSTONE), ExampleHash())
    ensures !Chained(Reclaimed(Example(TOMBSTONE), ExampleHash()), ExampleHash())
    ensures !Reclaimable(Example(TOMBSTONE), ExampleHash())
  {
    ExampleHolds();
    ExampleSweep();
    var t, hash := Example(EMPTY), ExampleHash();
    ReseatIs(t, hash, 6, 5);
    var t7 := t[6 := t[5]][5 := t[6]];
    assert t[6].(ptr := EMPTY) == t[5];
    assert Sweep(Example(TOMBSTONE), hash, 7) == t7;
    ReseatIs(t7, hash, 7, 6);
    var t8 := t7[7 := t7[6]][6 := t7[7]];
    assert t7[7].(ptr := EMPTY) == t7[6];
    assert Sweep(Example(TOMBSTONE), hash, 8) == t8;
    assert t8[0].ptr == 22 && Distance(6, 0, 8) == 2;
    assert t8[Visit(6, 1, 8)].ptr == EMPTY;
    assert !Reachable(t8, hash, 0);
    ReclaimKeeps(Example(TOMBSTONE), hash);
  }

  lemma {:induction false} NoTombstones(t: seq<Entry>)
    requires NoTombstone(t)
    ensures Tombstones(t) == 0
  {
    if t != [] {
      NoTombstones(t[..|t| - 1]);
    }
  }
}
