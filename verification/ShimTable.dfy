/** The table as the shim updates it, one operation at a time. */
module ShimTables {
  import opened ProbeTables
  import opened Reclaiming

  class Table {
    const hash: nat -> nat
    const entries: array<Entry>
    var tombstones: int

    ghost predicate Valid()
      reads this, entries
    {
      HashOk(hash, entries.Length) && Unique(entries[..]) && Marked(entries[..])
    }

    /** The counter is the number of tombstones. */
    ghost predicate Counted()
      reads this, entries
    {
      tombstones == Tombstones(entries[..])
    }

    ghost predicate Findable()
      reads this, entries
      requires HashOk(hash, entries.Length)
    {
      Chained(entries[..], hash)
    }

    /** One removal more makes the shim reclaim. */
    predicate Due()
      reads this
    {
      tombstones + 1 > entries.Length / 4
    }

    /** An empty table. */
    constructor (n: nat, hash: nat -> nat)
      requires HashOk(hash, n)
      ensures Valid() && Counted() && Findable() && fresh(entries) && Contents(entries[..]) == map[]
      ensures entries.Length == n && forall s :: 0 <= s < n ==> entries[s].ptr == EMPTY
    {
      this.hash := hash;
      var none := Info(0, false, 0, 0);
      entries := new Entry[n](_ => Entry(EMPTY, none));
      tombstones := 0;
      new;
      NoTombstones(entries[..]);
      ContentsIs(entries[..], map[]);
    }

    /** Any pointer goes into the first free slot of its probe, unchecked. One that is no mark and not
      * in the table yet is thereby added to the map. */
    method Insert(ptr: nat, info: Info) returns (ok: bool)
      requires Valid()
      modifies entries, this`tombstones
      ensures ok <==> exists s :: 0 <= s < entries.Length && !Live(old(entries[..])[s])
      ensures !ok ==> entries[..] == old(entries[..]) && tombstones == old(tombstones)
      ensures ok ==> exists i: nat :: FreeAt(old(entries[..]), hash(ptr), i)
                       && entries[..] == old(entries[..])[Visit(hash(ptr), i, entries.Length) := Entry(ptr, info)]
                       && tombstones == old(tombstones) - if old(entries[..])[Visit(hash(ptr), i, entries.Length)].ptr == TOMBSTONE then 1 else 0
      ensures ptr >= 2 && !Present(old(entries[..]), ptr) ==>
                && Valid() && (Counted() <==> old(Counted())) && (old(Findable()) ==> Findable())
                && Contents(entries[..]) == if ok then old(Contents(entries[..]))[ptr := info] else old(Contents(entries[..]))
    {
      var h, n := hash(ptr), entries.Length;
      for i := 0 to n
        invariant entries[..] == old(entries[..]) && tombstones == old(tombstones)
        invariant forall j :: 0 <= j < i ==> Live(entries[..][Visit(h, j, n)])
      {
        var idx := Visit(h, i, n);
        if entries[idx].ptr == EMPTY || entries[idx].ptr == TOMBSTONE {
          if ptr >= 2 && !Present(entries[..], ptr) {
            SlotTaken(entries[..], hash, i, Entry(ptr, info));
          }
          if entries[idx].ptr == TOMBSTONE {
            tombstones := tombstones - 1;
          }
          entries[idx] := Entry(ptr, info);
          assert FreeAt(old(entries[..]), h, i);
          assert entries[..] == old(entries[..])[idx := Entry(ptr, info)];
          return true;
        }
      }
      ok := false;
      forall s | 0 <= s < n ensures Live(entries[..][s]) {
        assert Live(entries[..][Visit(h, Distance(h, s, n), n)]);
      }
    }

    /** Any pointer is found exactly when its probe meets it before an empty slot. */
    method Lookup(ptr: nat) returns (found: bool, info: Info)
      requires Valid()
      ensures found <==> ptr != EMPTY && exists i: nat :: Meets(entries[..], hash(ptr), ptr, i)
      ensures found && ptr >= 2 ==> ptr in Contents(entries[..]) && info == Contents(entries[..])[ptr]
      ensures Findable() && ptr >= 2 ==> (found <==> ptr in Contents(entries[..]))
    {
      var idx;
      found, idx := Locate(ptr);
      info := entries[idx].info;
      if found && ptr >= 2 {
        ContentsAt(entries[..], idx, ptr);
      }
      if Findable() && ptr >= 2 {
        MeetsPresent(entries[..], hash, ptr);
        KeysArePresent(entries[..]);
      }
    }

    /** The probe loop shared by lookup and removal. */
    method Locate(ptr: nat) returns (found: bool, idx: nat)
      requires Valid()
      ensures idx < entries.Length && (found ==> entries[idx].ptr == ptr)
      ensures found <==> ptr != EMPTY && exists i: nat :: Meets(entries[..], hash(ptr), ptr, i)
    {
      var h, n := hash(ptr), entries.Length;
      for i := 0 to n
        invariant forall j :: 0 <= j < i ==> entries[..][Visit(h, j, n)].ptr != ptr && entries[..][Visit(h, j, n)].ptr != EMPTY
      {
        idx := Visit(h, i, n);
        if entries[idx].ptr == EMPTY {
          if ptr != EMPTY {
            ProbeEnds(entries[..], h, ptr, i);
          }
          return false, idx;
        }
        if entries[idx].ptr == ptr {
          assert Meets(entries[..], h, ptr, i);
          return true, idx;
        }
      }
      found, idx := false, 0;
      ProbeEnds(entries[..], h, ptr, n);
    }

    /** The slot is marked and counted, and beyond a quarter of the table all tombstones are
      * reclaimed. Asked to remove the tombstone mark itself, the shim counts a tombstone twice. */
    method Remove(ptr: nat) returns (found: bool, info: Info)
      requires Valid()
      modifies entries, this`tombstones
      ensures Valid()
      ensures found <==> ptr != EMPTY && exists i: nat :: Meets(old(entries[..]), hash(ptr), ptr, i)
      ensures !found ==> entries[..] == old(entries[..]) && tombstones == old(tombstones)
      ensures found ==> ptr == TOMBSTONE || Present(old(entries[..]), ptr)
      ensures found && old(tombstones) + 1 <= entries.Length / 4 ==>
                entries[..] == Dropped(old(entries[..]), ptr) && tombstones == old(tombstones) + 1 && !old(Due())
      ensures found && old(tombstones) + 1 > entries.Length / 4 ==>
                entries[..] == Reclaimed(Dropped(old(entries[..]), ptr), hash) && tombstones == 0 && old(Due())
      ensures found ==> Contents(entries[..]) == old(Contents(entries[..])) - {ptr}
      ensures found ==> info == if ptr == TOMBSTONE then REMOVED.info else old(Contents(entries[..]))[ptr]
      ensures old(Findable()) && ptr >= 2 ==> (found <==> ptr in old(Contents(entries[..])))
      ensures old(Counted()) ==> (Counted() <==> !(found && ptr == TOMBSTONE && !old(Due())))
      // Exactly when keys stay findable.
      ensures old(Findable()) ==>
                (Findable() <==> !(found && old(Due())) || Reclaimable(Dropped(old(entries[..]), ptr), hash))
    {
      var idx;
      found, idx := Locate(ptr);
      info := entries[idx].info;
      if Findable() && ptr >= 2 {
        MeetsPresent(entries[..], hash, ptr);
        KeysArePresent(entries[..]);
      }
      if found {
        MarkSlot(ptr, idx);
        if tombstones > entries.Length / 4 {
          Reclaim();
        }
      }
    }

    method MarkSlot(ptr: nat, idx: nat)
      requires Valid() && idx < entries.Length && entries[idx].ptr == ptr != EMPTY
      modifies entries, this`tombstones
      ensures Valid() && tombstones == old(tombstones) + 1
      ensures ptr == TOMBSTONE || Present(old(entries[..]), ptr)
      ensures entries[..] == Dropped(old(entries[..]), ptr)
      ensures Contents(entries[..]) == old(Contents(entries[..])) - {ptr}
      ensures old(entries[idx].info) == if ptr == TOMBSTONE then REMOVED.info else old(Contents(entries[..]))[ptr]
      ensures old(Findable()) ==> Findable()
      ensures old(Counted()) ==> (Counted() <==> ptr != TOMBSTONE)
    {
      if ptr == TOMBSTONE {
        assert entries[..][idx] == REMOVED;
        assert ptr !in Contents(entries[..]);
      } else {
        SlotDropped(entries[..], hash, idx, ptr);
      }
      entries[idx] := REMOVED;
      tombstones := tombstones + 1;
      assert entries[..] == Dropped(old(entries[..]), ptr);
    }

    /** Clear all tombstones, then take every live entry out and seat it again, in slot order. */
    method Reclaim()
      requires Valid()
      modifies entries, this`tombstones
      ensures Valid() && Counted() && tombstones == 0
      ensures entries[..] == Reclaimed(old(entries[..]), hash)
      ensures Contents(entries[..]) == old(Contents(entries[..]))
      ensures Findable() <==> Reclaimable(old(entries[..]), hash)
    {
      ghost var start := entries[..];
      ReclaimKeeps(start, hash);
      ClearAll();
      SweepAll(start);
      NoTombstones(entries[..]);
      tombstones := 0;
    }

    method ClearAll()
      modifies entries
      ensures entries[..] == Cleared(old(entries[..]))
    {
      ghost var start := entries[..];
      for i := 0 to entries.Length
        invariant forall s :: 0 <= s < i ==> entries[s] == Cleared(start)[s]
        invariant forall s :: i <= s < entries.Length ==> entries[s] == start[s]
      {
        if entries[i].ptr == TOMBSTONE {
          entries[i] := entries[i].(ptr := EMPTY);
        }
      }
    }

    method SweepAll(ghost start: seq<Entry>)
      requires HashOk(hash, entries.Length) && |start| == entries.Length && entries[..] == Cleared(start)
      modifies entries
      ensures entries[..] == Reclaimed(start, hash)
    {
      for i := 0 to entries.Length
        invariant entries[..] == Sweep(start, hash, i)
      {
        ReseatSlot(i);
      }
    }

    method ReseatSlot(i: nat)
      requires HashOk(hash, entries.Length) && i < entries.Length
      modifies entries
      ensures entries[..] == Reseat(old(entries[..]), hash, i)
    {
      if entries[i].ptr != EMPTY && entries[i].ptr != TOMBSTONE {
        var saved, n := entries[i], entries.Length;
        var h := hash(saved.ptr);
        entries[i] := entries[i].(ptr := EMPTY);
        ghost var out := entries[..];
        EmptySeats(out, h, i);
        for j := 0 to n
          invariant entries[..] == out
          invariant exists k :: j <= k < n && out[Visit(h, k, n)].ptr == EMPTY
          invariant j < n && Seat(out, h, 0) == Seat(out, h, j)
        {
          var idx := Visit(h, j, n);
          if entries[idx].ptr == EMPTY {
            entries[idx] := saved;
            break;
          }
        }
      }
    }
  }
}
