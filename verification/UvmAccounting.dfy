/** Managed allocations of the shim: the byte counter, the table behind it, and the memory reported. */
module UvmAccounting {
  import opened ProbeTables
  import opened Reclaiming
  import opened ShimTables

  const CUDA_SUCCESS: int := 0
  const CUDA_ERROR_OUT_OF_MEMORY: int := 2

  /** The bytes of the live managed entries. */
  function ManagedBytes(t: seq<Entry>): nat {
    if t == [] then 0 else ManagedBytes(t[..|t| - 1]) + Weight(t[|t| - 1])
  }

  function Weight(e: Entry): nat {
    if Live(e) && e.info.managed then e.info.size else 0
  }

  lemma {:induction false} ManagedUpdate(t: seq<Entry>, s: nat, e: Entry)
    requires s < |t|
    ensures ManagedBytes(t[s := e]) + Weight(t[s]) == ManagedBytes(t) + Weight(e)
  {
    var init := t[..|t| - 1];
    if s == |t| - 1 {
      assert t[s := e][..|t| - 1] == init;
    } else {
      assert t[s := e][..|t| - 1] == init[s := e];
      ManagedUpdate(init, s, e);
    }
  }

  lemma {:induction false} ClearedWeighs(t: seq<Entry>)
    ensures ManagedBytes(Cleared(t)) == ManagedBytes(t)
  {
    if t != [] {
      ClearedWeighs(t[..|t| - 1]);
      assert Cleared(t)[..|t| - 1] == Cleared(t[..|t| - 1]);
    }
  }

  lemma {:induction false} SweepWeighs(t: seq<Entry>, hash: nat -> nat, i: nat)
    requires HashOk(hash, |t|) && i <= |t|
    ensures ManagedBytes(Sweep(t, hash, i)) == ManagedBytes(t)
  {
    if i == 0 {
      ClearedWeighs(t);
    } else {
      SweepWeighs(t, hash, i - 1);
      ReseatWeighs(Sweep(t, hash, i - 1), hash, i - 1);
    }
  }

  lemma ReseatWeighs(t: seq<Entry>, hash: nat -> nat, i: nat)
    requires HashOk(hash, |t|) && i < |t|
    ensures ManagedBytes(Reseat(t, hash, i)) == ManagedBytes(t)
  {
    if Live(t[i]) {
      var out := t[i := t[i].(ptr := EMPTY)];
      EmptySeats(out, hash(t[i].ptr), i);
      ManagedUpdate(t, i, out[i]);
      ManagedUpdate(out, Seat(out, hash(t[i].ptr), 0), t[i]);
    }
  }

  /** A table with room keeps room through a reclaim. */
  predicate Room(t: seq<Entry>) {
    exists s :: 0 <= s < |t| && !Live(t[s])
  }

  lemma {:induction false} SweepKeepsRoom(t: seq<Entry>, hash: nat -> nat, i: nat)
    requires HashOk(hash, |t|) && i <= |t| && Room(t)
    ensures Room(Sweep(t, hash, i))
  {
    if i == 0 {
      var s :| 0 <= s < |t| && !Live(t[s]);
      assert !Live(Cleared(t)[s]);
    } else {
      SweepKeepsRoom(t, hash, i - 1);
      var before := Sweep(t, hash, i - 1);
      var s :| 0 <= s < |t| && !Live(before[s]);
      if Live(before[i - 1]) {
        var out := before[i - 1 := before[i - 1].(ptr := EMPTY)];
        EmptySeats(out, hash(before[i - 1].ptr), i - 1);
        var x := Seat(out, hash(before[i - 1].ptr), 0);
        assert !Live(Sweep(t, hash, i)[if x == i - 1 then s else i - 1]);
      }
    }
  }

  /** After a removal, reclaimed or not, the weight has dropped by the entry's and there is room. */
  lemma AfterRemove(t: seq<Entry>, hash: nat -> nat, key: nat)
    requires HashOk(hash, |t|) && Unique(t) && Present(t, key) && key >= 2
    ensures key in Contents(t)
    ensures var w := if Contents(t)[key].managed then Contents(t)[key].size else 0;
            && ManagedBytes(Dropped(t, key)) == ManagedBytes(t) - w
            && ManagedBytes(Reclaimed(Dropped(t, key), hash)) == ManagedBytes(t) - w
    ensures Room(Dropped(t, key)) && Room(Reclaimed(Dropped(t, key), hash))
    ensures !Present(Dropped(t, key), key) && !Present(Reclaimed(Dropped(t, key), hash), key)
  {
    var s := Where(t, key);
    ContentsAt(t, s, key);
    ManagedUpdate(t, s, REMOVED);
    SweepWeighs(Dropped(t, key), hash, |t|);
    assert !Live(Dropped(t, key)[s]);
    ContentsDrop(t, s, REMOVED);
    SweepKeeps(Dropped(t, key), hash, |t|);
    KeysArePresent(Dropped(t, key));
    KeysArePresent(Reclaimed(Dropped(t, key), hash));
    SweepKeepsRoom(Dropped(t, key), hash, |t|);
  }

  /** What the entry put into the first free slot of its probe adds. */
  lemma FillWeighs(t: seq<Entry>, h: nat, e: Entry, t': seq<Entry>)
    requires h < |t| && exists i: nat :: FreeAt(t, h, i) && t' == t[Visit(h, i, |t|) := e]
    ensures ManagedBytes(t') == ManagedBytes(t) + Weight(e)
  {
    var i: nat :| FreeAt(t, h, i) && t' == t[Visit(h, i, |t|) := e];
    ManagedUpdate(t, Visit(h, i, |t|), e);
  }

  /** What a removal, of an entry or of the tombstone mark, takes out. */
  lemma RemovalWeighs(t: seq<Entry>, hash: nat -> nat, ptr: nat, due: bool, after: seq<Entry>, info: Info)
    requires HashOk(hash, |t|) && Unique(t) && (ptr == TOMBSTONE || (ptr >= 2 && Present(t, ptr)))
    requires after == if due then Reclaimed(Dropped(t, ptr), hash) else Dropped(t, ptr)
    requires ptr >= 2 ==> ptr in Contents(t) && info == Contents(t)[ptr]
    requires ptr == TOMBSTONE ==> info == REMOVED.info
    ensures ManagedBytes(t) == ManagedBytes(after) + if info.managed then info.size else 0
    ensures ptr >= 2 ==> Room(after) && !Present(after, ptr) && (Contents(t) - {ptr})[ptr := info] == Contents(t)
  {
    if ptr == TOMBSTONE {
      SweepWeighs(t, hash, |t|);
    } else {
      AfterRemove(t, hash, ptr);
      PutBack(Contents(t), ptr);
    }
  }

  class Shim {
    const table: Table
    var uvmBytes: int  // UvmAllocatedBytes
    ghost var sound: bool  // every reclaim so far found the table reclaimable

    ghost predicate Valid()
      reads this, table, table.entries
    {
      && table.Valid()
      && uvmBytes == ManagedBytes(table.entries[..])
      && (sound ==> table.Findable())
    }

    ghost function Records(): map<nat, Info>
      reads this, table, table.entries
    {
      Contents(table.entries[..])
    }

    constructor (n: nat, hash: nat -> nat)
      requires HashOk(hash, n)
      ensures Valid() && sound && Records() == map[] && fresh(table) && fresh(table.entries)
    {
      table := new Table(n, hash);
      uvmBytes := 0;
      sound := true;
      new;
      EmptyWeighs(table.entries[..]);
    }

    /** gb_alloc_uvm. The driver answers with `ret` and, on success, with a pointer that the table
      * does not record. */
    method AllocManaged(size: nat, ret: int, dptr: nat) returns (result: int)
      requires Valid()
      requires ret == CUDA_SUCCESS ==> dptr >= 2 && !Present(table.entries[..], dptr)
      modifies this, table, table.entries
      ensures Valid() && sound == old(sound) && (old(table.Counted()) ==> table.Counted())
      ensures result == if ret != CUDA_SUCCESS then ret else if old(Room(table.entries[..])) then CUDA_SUCCESS else CUDA_ERROR_OUT_OF_MEMORY
      ensures Records() == if result == CUDA_SUCCESS then old(Records())[dptr := Info(size, true, 0, 0)] else old(Records())
      ensures uvmBytes == old(uvmBytes) + if result == CUDA_SUCCESS then size else 0
    {
      if ret != CUDA_SUCCESS {
        return ret;
      }
      ghost var before := table.entries[..];
      var ok := table.Insert(dptr, Info(size, true, 0, 0));
      if !ok {
        return CUDA_ERROR_OUT_OF_MEMORY;
      }
      FillWeighs(before, table.hash(dptr), Entry(dptr, Info(size, true, 0, 0)), table.entries[..]);
      uvmBytes := uvmBytes + size;
      result := CUDA_SUCCESS;
    }

    /** gb_free_buffer, for any pointer. `freeRet` and `unregisterRet` are what the driver answers if
      * asked to free a managed pointer or to unregister a mapped buffer; `released` is what is handed back to
      * the driver through gb_free_driver_buf. */
    method Free(ptr: nat, freeRet: int, unregisterRet: int) returns (handled: bool, result: int, released: seq<int>)
      requires Valid()
      modifies this, table, table.entries
      ensures Valid()
      ensures handled <==> ptr != EMPTY && exists i: nat :: Meets(old(table.entries[..]), table.hash(ptr), ptr, i)
      ensures old(sound) && ptr >= 2 ==> (handled <==> ptr in old(Records()))
      ensures !handled ==> Records() == old(Records()) && uvmBytes == old(uvmBytes) && sound == old(sound)
      // The driver is asked what the kind of allocation calls for, and its answer reaches the caller.
      ensures handled && ptr >= 2 ==> ptr in old(Records())
      ensures handled && ptr >= 2 && old(Records())[ptr].managed ==> result == freeRet
      ensures handled && ptr >= 2 && !old(Records())[ptr].managed && old(Records())[ptr].mapped != 0 ==> result == unregisterRet
      ensures handled && ptr >= 2 && !old(Records())[ptr].managed && old(Records())[ptr].mapped == 0 ==> result == CUDA_SUCCESS
      // The record goes, and with it the bytes of managed memory, exactly when that answer is a success.
      ensures handled ==> Records() == if result == CUDA_SUCCESS then old(Records()) - {ptr} else old(Records())
      ensures handled && ptr >= 2 ==>
                uvmBytes == old(uvmBytes) - if old(Records())[ptr].managed && freeRet == CUDA_SUCCESS then old(Records())[ptr].size else 0
      // The driver's own buffer, if the record has one, goes back when nothing stands in the way.
      ensures handled && ptr >= 2 ==> released == if result == CUDA_SUCCESS && !old(Records())[ptr].managed && old(Records())[ptr].bufId > 0
                                                  then [old(Records())[ptr].bufId] else []
      ensures !handled || ptr == TOMBSTONE ==> released == []
      // The tombstone's own mark is taken for a pointer, freed without effect but for the counter.
      ensures handled && ptr == TOMBSTONE ==> result == CUDA_SUCCESS && uvmBytes == old(uvmBytes)
      ensures old(table.Counted()) ==> (table.Counted() <==> !(handled && ptr == TOMBSTONE && !old(table.Due())))
      // Exactly when keys stay findable.
      ensures sound <==> old(sound) && !(handled && old(table.Due()) && !Reclaimable(Dropped(old(table.entries[..]), ptr), table.hash))
    {
      ghost var before, due := table.entries[..], table.Due();
      var info;
      handled, info := table.Remove(ptr);
      result, released := CUDA_SUCCESS, [];
      if !handled {
        return;
      }
      sound := sound && !(due && !Reclaimable(Dropped(before, ptr), table.hash));
      RemovalWeighs(before, table.hash, ptr, due, table.entries[..], info);
      result := Answer(info, freeRet, unregisterRet);
      Conclude(ptr, info, result != CUDA_SUCCESS);
      if result == CUDA_SUCCESS && !info.managed && info.bufId > 0 {
        released := [info.bufId];
      }
    }

    /** The end of a free: forget the bytes or, if the driver refused, record the allocation again. */
    method Conclude(ptr: nat, info: Info, refused: bool)
      requires table.Valid()
      requires refused ==> ptr >= 2 && !Present(table.entries[..], ptr) && Room(table.entries[..])
      requires uvmBytes == ManagedBytes(table.entries[..]) + if info.managed then info.size else 0
      modifies this`uvmBytes, table, table.entries
      ensures table.Valid() && uvmBytes == ManagedBytes(table.entries[..])
      ensures Records() == if refused then old(Records())[ptr := info] else old(Records())
      ensures old(table.Findable()) ==> table.Findable()
      ensures table.Counted() <==> old(table.Counted())
      ensures uvmBytes == old(uvmBytes) - if !refused && info.managed then info.size else 0
    {
      if refused {
        Restore(ptr, info);
      } else if info.managed {
        uvmBytes := uvmBytes - info.size;
      }
    }

    /** The answer of the driver call that the kind of allocation asks for. */
    static function Answer(info: Info, freeRet: int, unregisterRet: int): int {
      if info.managed then freeRet else if info.mapped != 0 then unregisterRet else CUDA_SUCCESS
    }

    /** Record an allocation again that the driver refused to free: the slot just left is free. */
    method Restore(ptr: nat, info: Info)
      requires table.Valid() && ptr >= 2 && !Present(table.entries[..], ptr) && Room(table.entries[..])
      modifies table, table.entries
      ensures table.Valid()
      ensures Contents(table.entries[..]) == old(Contents(table.entries[..]))[ptr := info]
      ensures ManagedBytes(table.entries[..]) == old(ManagedBytes(table.entries[..])) + if info.managed then info.size else 0
      ensures old(table.Findable()) ==> table.Findable()
      ensures table.Counted() <==> old(table.Counted())
    {
      ghost var before := table.entries[..];
      var ok := table.Insert(ptr, info);
      assert ok;
      FillWeighs(before, table.hash(ptr), Entry(ptr, info), table.entries[..]);
    }

    static function Positive(n: int): nat {
      if n > 0 then n else 0
    }

    /** hooked_cuMemGetInfo, after the driver has answered `free` and `total`. `memory` is the physical
      * memory available now, if the system could tell. */
    method GetInfo(free: nat, total: nat, extra: nat, memory: int, reserve: nat) returns (free': nat, total': nat)
      requires Valid()
      ensures total' == total + extra
      // What is added is the rest of the allowance, as far as there is memory beyond the reserve, and
      // never more than the total: the only number that is all of this.
      ensures free' <= total' && free' <= free + Positive(extra - uvmBytes) && free' <= free + Positive(memory - reserve)
      ensures free' == total' || free' == free + Positive(extra - uvmBytes) || free' == free + Positive(memory - reserve)
      // The allowance is never promised twice.
      ensures free' - free + uvmBytes <= if extra > uvmBytes then extra else uvmBytes
      ensures free <= total ==> free <= free'
    {
      var available := if uvmBytes < extra then extra - uvmBytes else 0;
      if memory < 0 {
        available := 0;
      } else {
        var headroom := if memory > reserve then memory - reserve else 0;
        if available > headroom {
          available := headroom;
        }
      }
      total' := total + extra;
      free' := free + available;
      if free' > total' {
        free' := total';
      }
    }
  }

  lemma {:induction false} EmptyWeighs(t: seq<Entry>)
    requires forall s :: 0 <= s < |t| ==> !Live(t[s])
    ensures ManagedBytes(t) == 0
  {
    if t != [] {
      EmptyWeighs(t[..|t| - 1]);
    }
  }
}
