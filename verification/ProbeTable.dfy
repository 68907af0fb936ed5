/** The shim's allocation table: open addressing with tombstones, for any table size and any hash. */
module ProbeTables {

  const EMPTY: nat := 0
  const TOMBSTONE: nat := 1

  /** What is recorded about a device pointer. */
  datatype Info = Info(size: nat, managed: bool, bufId: int, mapped: nat)

  datatype Entry = Entry(ptr: nat, info: Info)

  predicate Live(e: Entry) {
    e.ptr != EMPTY && e.ptr != TOMBSTONE
  }

  /** A hash into a table of `n` slots. */
  ghost predicate HashOk(hash: nat -> nat, n: nat) {
    0 < n && forall p :: hash(p) < n
  }

  // ----- Probe sequences -----

  /** The slot visited at step `i` from slot `h`. */
  function Visit(h: nat, i: nat, n: nat): nat
    requires h < n
  {
    if h + i < n then h + i else h + i - n
  }

  /** The step at which slot `s` is visited from slot `h`. */
  function Distance(h: nat, s: nat, n: nat): (i: nat)
    requires h < n && s < n
    ensures i < n && Visit(h, i, n) == s
  {
    if h <= s then s - h else s + n - h
  }

  // ----- The shim's own table -----

  const HT_SIZE: nat := 0x2_0000
  const TWO_64: nat := 0x1_0000_0000_0000_0000
  const TWO_47: nat := 0x8000_0000_0000

  /** The top bits of a 64-bit product. */
  function HtHash(ptr: nat): nat {
    ptr * 0x9E37_79B9_7F4A_7C15 % TWO_64 / TWO_47
  }

  /** The source masks the sum with HT_SIZE - 1, a power of two less one: the slot is the remainder. */
  lemma VisitIsRemainder(h: nat, i: nat)
    requires h < HT_SIZE && i < HT_SIZE
    ensures Visit(h, i, HT_SIZE) == (h + i) % HT_SIZE
  {
  }

  /** The multiplicative hash addresses every table the shim uses. */
  lemma HtHashFits()
    ensures HashOk(HtHash, HT_SIZE)
  {
    forall ptr: nat ensures HtHash(ptr) < HT_SIZE {
      var x := ptr * 0x9E37_79B9_7F4A_7C15 % TWO_64;
      assert x < HT_SIZE * TWO_47;
    }
  }

  // ----- What the table means -----

  predicate Has(t: seq<Entry>, s: nat, key: nat) {
    s < |t| && Live(t[s]) && t[s].ptr == key
  }

  ghost predicate Present(t: seq<Entry>, key: nat) {
    exists s: nat :: Has(t, s, key)
  }

  /** No key is in the table twice. */
  predicate Unique(t: seq<Entry>) {
    forall a, b :: 0 <= a < b < |t| && Live(t[a]) && Live(t[b]) ==> t[a].ptr != t[b].ptr
  }

  ghost function Where(t: seq<Entry>, key: nat): (s: nat)
    requires Present(t, key)
    ensures Has(t, s, key)
  {
    var s: nat :| Has(t, s, key);
    s
  }

  function Keys(t: seq<Entry>): set<nat> {
    set s | 0 <= s < |t| && Live(t[s]) :: t[s].ptr
  }

  lemma KeysArePresent(t: seq<Entry>)
    ensures forall k :: k in Keys(t) <==> Present(t, k)
  {
    forall k ensures k in Keys(t) <==> Present(t, k) {
      if s: nat :| Has(t, s, k) {
        assert t[s].ptr in Keys(t);
      }
      if k in Keys(t) {
        var s: nat :| s < |t| && Live(t[s]) && t[s].ptr == k;
        assert Has(t, s, k);
      }
    }
  }

  /** The finite map that the table stands for. */
  ghost function Contents(t: seq<Entry>): map<nat, Info> {
    map k | k in Keys(t) && Present(t, k) :: t[Where(t, k)].info
  }

  lemma ContentsAt(t: seq<Entry>, s: nat, key: nat)
    requires Unique(t) && Has(t, s, key)
    ensures key in Contents(t) && Contents(t)[key] == t[s].info
  {
    KeysArePresent(t);
  }

  /** A table stands for a map when each live entry is in the map and each key is in the table. */
  lemma ContentsIs(t: seq<Entry>, m: map<nat, Info>)
    requires Unique(t)
    requires forall s :: 0 <= s < |t| && Live(t[s]) ==> t[s].ptr in m && m[t[s].ptr] == t[s].info
    requires forall k :: k in m ==> Present(t, k)
    ensures Contents(t) == m
  {
    KeysArePresent(t);
    forall k | k in Contents(t) ensures k in m && m[k] == Contents(t)[k] {
      assert Has(t, Where(t, k), k);
    }
  }

  lemma UniqueAdd(t: seq<Entry>, s: nat, e: Entry)
    requires Unique(t) && s < |t| && !Present(t, e.ptr)
    ensures Unique(t[s := e])
  {
    forall a: nat | a < |t| && Live(t[a]) ensures t[a].ptr != e.ptr {
      assert t[a].ptr == e.ptr ==> Has(t, a, e.ptr);
    }
  }

  /** A free slot that takes a new key adds that key. */
  lemma ContentsAdd(t: seq<Entry>, s: nat, e: Entry)
    requires Unique(t) && s < |t| && !Live(t[s]) && Live(e) && !Present(t, e.ptr)
    ensures Unique(t[s := e]) && Contents(t[s := e]) == Contents(t)[e.ptr := e.info]
  {
    var t' := t[s := e];
    UniqueAdd(t, s, e);
    forall a | 0 <= a < |t'| && Live(t'[a])
      ensures t'[a].ptr in Contents(t)[e.ptr := e.info] && Contents(t)[e.ptr := e.info][t'[a].ptr] == t'[a].info
    {
      if a != s {
        assert Has(t, a, t[a].ptr);
        ContentsAt(t, a, t[a].ptr);
      }
    }
    forall k | k in Contents(t)[e.ptr := e.info] ensures Present(t', k) {
      assert Has(t', if k == e.ptr then s else Where(t, k), k);
    }
    ContentsIs(t', Contents(t)[e.ptr := e.info]);
  }

  /** A live slot that is given up removes its key. */
  lemma ContentsDrop(t: seq<Entry>, s: nat, e: Entry)
    requires Unique(t) && s < |t| && Live(t[s]) && !Live(e)
    ensures Unique(t[s := e]) && Contents(t[s := e]) == Contents(t) - {t[s].ptr} && !Present(t[s := e], t[s].ptr)
  {
    var t' := t[s := e];
    forall a | 0 <= a < |t'| && Live(t'[a])
      ensures t'[a].ptr in Contents(t) - {t[s].ptr} && Contents(t)[t'[a].ptr] == t'[a].info
    {
      assert Has(t, a, t[a].ptr);
      ContentsAt(t, a, t[a].ptr);
    }
    forall k | k in Contents(t) - {t[s].ptr} ensures Present(t', k) {
      assert Has(t', Where(t, k), k);
    }
    ContentsIs(t', Contents(t) - {t[s].ptr});
  }

  /** No slot before the entry, on the way from its hash, is empty. */
  predicate Reachable(t: seq<Entry>, hash: nat -> nat, s: nat)
    requires s < |t| && hash(t[s].ptr) < |t|
  {
    forall i :: 0 <= i < Distance(hash(t[s].ptr), s, |t|) ==> t[Visit(hash(t[s].ptr), i, |t|)].ptr != EMPTY
  }

  /** Every probe chain is unbroken. */
  ghost predicate Chained(t: seq<Entry>, hash: nat -> nat)
    requires HashOk(hash, |t|)
  {
    forall s :: 0 <= s < |t| && Live(t[s]) ==> Reachable(t, hash, s)
  }

  /** Filling a free slot that a probe for the key has reached keeps all chains. */
  lemma ChainedAdd(t: seq<Entry>, hash: nat -> nat, s: nat, e: Entry)
    requires HashOk(hash, |t|) && Chained(t, hash)
    requires s < |t| && !Live(t[s]) && Live(e)
    requires forall i :: 0 <= i < Distance(hash(e.ptr), s, |t|) ==> t[Visit(hash(e.ptr), i, |t|)].ptr != EMPTY
    ensures Chained(t[s := e], hash)
  {
    var t' := t[s := e];
    forall a | 0 <= a < |t'| && Live(t'[a]) ensures Reachable(t', hash, a) {
      assert a != s ==> Reachable(t, hash, a);
    }
  }

  /** A tombstone keeps all chains. */
  lemma ChainedDrop(t: seq<Entry>, hash: nat -> nat, s: nat, e: Entry)
    requires HashOk(hash, |t|) && Chained(t, hash)
    requires s < |t| && e.ptr == TOMBSTONE
    ensures Chained(t[s := e], hash)
  {
    var t' := t[s := e];
    forall a | 0 <= a < |t'| && Live(t'[a]) ensures Reachable(t', hash, a) {
      assert Reachable(t, hash, a);
    }
  }

  function Tombstones(t: seq<Entry>): (n: nat)
    ensures n <= |t|
  {
    if t == [] then 0 else Tombstones(t[..|t| - 1]) + if t[|t| - 1].ptr == TOMBSTONE then 1 else 0
  }

  lemma {:induction false} TombstonesUpdate(t: seq<Entry>, s: nat, e: Entry)
    requires s < |t|
    ensures Tombstones(t[s := e]) + (if t[s].ptr == TOMBSTONE then 1 else 0) == Tombstones(t) + if e.ptr == TOMBSTONE then 1 else 0
  {
    var init := t[..|t| - 1];
    if s == |t| - 1 {
      assert t[s := e][..|t| - 1] == init;
    } else {
      assert t[s := e][..|t| - 1] == init[s := e];
      TombstonesUpdate(init, s, e);
    }
  }

  // ----- One slot changes -----

  /** The mark left in a removed slot. */
  const REMOVED := Entry(TOMBSTONE, Info(0, false, -1, 0))

  /** Every tombstone carries the mark. */
  predicate Marked(t: seq<Entry>) {
    forall s :: 0 <= s < |t| && t[s].ptr == TOMBSTONE ==> t[s] == REMOVED
  }

  /** The table once the pointer's slot has been marked; marking a tombstone again changes nothing. */
  ghost function Dropped(t: seq<Entry>, ptr: nat): seq<Entry>
    requires ptr == TOMBSTONE || Present(t, ptr)
  {
    if ptr == TOMBSTONE then t else t[Where(t, ptr) := REMOVED]
  }

  /** A probe from `h` meets the pointer at step `i`, before any empty slot. */
  predicate Meets(t: seq<Entry>, h: nat, ptr: nat, i: nat)
    requires h < |t|
  {
    && i < |t| && t[Visit(h, i, |t|)].ptr == ptr
    && forall j :: 0 <= j < i ==> t[Visit(h, j, |t|)].ptr != EMPTY && t[Visit(h, j, |t|)].ptr != ptr
  }

  /** The first slot of the probe that is not live is at step `i`. */
  predicate FreeAt(t: seq<Entry>, h: nat, i: nat)
    requires h < |t|
  {
    i < |t| && !Live(t[Visit(h, i, |t|)]) && forall j :: 0 <= j < i ==> Live(t[Visit(h, j, |t|)])
  }

  /** The key takes the first free slot of its probe. */
  lemma SlotTaken(t: seq<Entry>, hash: nat -> nat, i: nat, e: Entry)
    requires HashOk(hash, |t|) && Unique(t) && i < |t| && Live(e) && !Present(t, e.ptr)
    requires forall j :: 0 <= j < i ==> Live(t[Visit(hash(e.ptr), j, |t|)])
    requires !Live(t[Visit(hash(e.ptr), i, |t|)])
    ensures var t' := t[Visit(hash(e.ptr), i, |t|) := e];
            && Unique(t') && Contents(t') == Contents(t)[e.ptr := e.info]
            && Tombstones(t') + (if t[Visit(hash(e.ptr), i, |t|)].ptr == TOMBSTONE then 1 else 0) == Tombstones(t)
            && (Chained(t, hash) ==> Chained(t', hash))
  {
    var s := Visit(hash(e.ptr), i, |t|);
    ContentsAdd(t, s, e);
    TombstonesUpdate(t, s, e);
    if Chained(t, hash) {
      ChainedAdd(t, hash, s, e);
    }
  }

  lemma SlotDropped(t: seq<Entry>, hash: nat -> nat, s: nat, key: nat)
    requires HashOk(hash, |t|) && Unique(t) && Has(t, s, key)
    ensures Present(t, key) && Dropped(t, key) == t[s := REMOVED] && Unique(Dropped(t, key))
    ensures Marked(t) ==> Marked(Dropped(t, key))
    ensures key in Contents(t) && Contents(t)[key] == t[s].info
    ensures Contents(Dropped(t, key)) == Contents(t) - {key}
    ensures Tombstones(Dropped(t, key)) == Tombstones(t) + 1
    ensures Chained(t, hash) ==> Chained(Dropped(t, key), hash)
  {
    ContentsAt(t, s, key);
    ContentsDrop(t, s, REMOVED);
    TombstonesUpdate(t, s, REMOVED);
    DroppedIsChained(t, hash, s, t[s := REMOVED]);
  }

  lemma DroppedIsChained(t: seq<Entry>, hash: nat -> nat, s: nat, t': seq<Entry>)
    requires HashOk(hash, |t|) && s < |t| && t' == t[s := REMOVED]
    ensures Chained(t, hash) ==> Chained(t', hash)
  {
    if Chained(t, hash) {
      ChainedDrop(t, hash, s, REMOVED);
    }
  }

  /** Where chains are unbroken, a probe meets exactly the keys that are there. */
  lemma MeetsPresent(t: seq<Entry>, hash: nat -> nat, key: nat)
    requires HashOk(hash, |t|) && Chained(t, hash) && Unique(t) && key >= 2
    ensures (exists i :: Meets(t, hash(key), key, i)) <==> Present(t, key)
  {
    if s: nat :| Has(t, s, key) {
      var i := Distance(hash(key), s, |t|);
      assert Reachable(t, hash, s);
      forall j | 0 <= j < i ensures t[Visit(hash(key), j, |t|)].ptr != key {
        assert Distance(hash(key), Visit(hash(key), j, |t|), |t|) == j;
      }
      assert Meets(t, hash(key), key, i);
    }
    if i: nat :| Meets(t, hash(key), key, i) {
      assert Has(t, Visit(hash(key), i, |t|), key);
    }
  }

  /** A probe that meets an empty slot, or has visited every slot, meets nothing more. */
  lemma ProbeEnds(t: seq<Entry>, h: nat, ptr: nat, i: nat)
    requires h < |t| && i <= |t|
    requires forall j :: 0 <= j < i ==> t[Visit(h, j, |t|)].ptr != ptr
    requires i == |t| || (t[Visit(h, i, |t|)].ptr == EMPTY && ptr != EMPTY)
    ensures !exists k :: Meets(t, h, ptr, k)
  {
  }
}
