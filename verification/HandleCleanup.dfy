/** The Windows driver's buffer table and the per-handle ownership bitmaps that let it free
  * everything a crashed process leaves behind. */
module HandleCleanup {

  const GB_MAX_BUFS: nat := 4096
  const WORDS: nat := 128  // (GB_MAX_BUFS + 31) / 32

  datatype Option<T> = None | Some(value: T)

  datatype Buf = Buf(size: nat, tier3: bool)

  datatype Status = Success | InvalidParameter | InsufficientResources | NotFound | MapFailed

  predicate IdOk(id: int) {
    0 < id < GB_MAX_BUFS
  }

  // ----- The bitmap of one handle -----

  /** The mask of one bit: a one shifted left `j` places, which is doubled `j` times. */
  function Mask(j: nat): bv32
    requires j < 32
  {
    if j == 0 then 1 else Mask(j - 1) + Mask(j - 1)
  }

  lemma {:induction false} MaskIsShift(j: nat)
    requires j < 32
    ensures Mask(j) == (1 as bv32) << j
  {
    if j > 0 {
      MaskIsShift(j - 1);
    }
  }

  lemma {:induction false} MaskNonzero(j: nat)
    requires j < 32
    ensures Mask(j) != 0
    decreases 32 - j
  {
    if j == 31 {
      MaskIsShift(31);
    } else {
      MaskNonzero(j + 1);
      assert Mask(j + 1) == Mask(j) + Mask(j);
    }
  }

  lemma {:induction false} MasksApart(j: nat, k: nat)
    requires j < k < 32
    ensures Mask(j) & Mask(k) == 0 && Mask(k) & Mask(j) == 0
  {
    if j == 0 {
      LowBit(Mask(k - 1));
    } else {
      MasksApart(j - 1, k - 1);
      BothShifted(Mask(j - 1), Mask(k - 1));
    }
  }

  lemma LowBit(w: bv32)
    ensures 1 & (w + w) == 0 && (w + w) & 1 == 0
  {
  }

  lemma BothShifted(a: bv32, b: bv32)
    requires a & b == 0
    ensures (a + a) & (b + b) == 0 && (b + b) & (a + a) == 0
  {
  }

  /** The test that the driver makes. */
  predicate Meets(w: bv32, mask: bv32) {
    w & mask != 0
  }

  lemma SetOther(w: bv32, a: bv32, b: bv32)
    requires a & b == 0
    ensures Meets(w | a, b) <==> Meets(w, b)
  {
    Distributes(w, a, b);
    Neutral(w & b);
  }

  lemma ClearOther(w: bv32, a: bv32, b: bv32)
    requires a & b == 0
    ensures Meets(w & !a, b) <==> Meets(w, b)
  {
    Excludes(w, a, b);
    Neutral(w & b);
  }

  lemma Distributes(w: bv32, a: bv32, b: bv32)
    ensures (w | a) & b == (w & b) | (a & b)
  {
  }

  lemma Excludes(w: bv32, a: bv32, b: bv32)
    ensures (w & !a) & b == (w & b) & !(a & b)
  {
  }

  lemma Neutral(w: bv32)
    ensures w | 0 == w && w & !0 == w
  {
  }

  lemma SameMask(w: bv32, a: bv32)
    requires a != 0
    ensures Meets(w | a, a) && !Meets(w & !a, a) && !Meets(0, a)
  {
    assert (w | a) & a == a;
    assert (w & !a) & a == 0;
  }

  lemma Miss(j: nat, k: nat)
    requires j < 32 && k < 32 && j != k
    ensures Mask(j) & Mask(k) == 0
  {
    if j < k {
      MasksApart(j, k);
    } else {
      MasksApart(k, j);
    }
  }

  lemma SetApart(w: bv32, j: nat, k: nat)
    requires j < 32 && k < 32 && j != k
    ensures Meets(w | Mask(j), Mask(k)) <==> Meets(w, Mask(k))
  {
    Miss(j, k);
    SetOther(w, Mask(j), Mask(k));
  }

  lemma SetSame(w: bv32, j: nat)
    requires j < 32
    ensures Meets(w | Mask(j), Mask(j))
  {
    MaskNonzero(j);
    SameMask(w, Mask(j));
  }

  lemma ClearApart(w: bv32, j: nat, k: nat)
    requires j < 32 && k < 32 && j != k
    ensures Meets(w & !Mask(j), Mask(k)) <==> Meets(w, Mask(k))
  {
    Miss(j, k);
    ClearOther(w, Mask(j), Mask(k));
  }

  lemma ClearSame(w: bv32, j: nat)
    requires j < 32
    ensures !Meets(w & !Mask(j), Mask(j))
  {
    MaskNonzero(j);
    SameMask(w, Mask(j));
  }

  predicate Bit(w: bv32, k: nat)
    requires k < 32
  {
    Meets(w, Mask(k))
  }

  /** The bits of a word that are set. */
  ghost function Bits(w: bv32): set<nat> {
    set k: nat | k < 32 && Bit(w, k)
  }

  lemma OneBit(w: bv32, w': bv32, j: nat)
    requires j < 32 && forall k: nat :: k < 32 && k != j ==> (Bit(w', k) <==> Bit(w, k))
    ensures Bits(w') == if Bit(w', j) then Bits(w) + {j} else Bits(w) - {j}
  {
  }

  lemma SetOthers(w: bv32, j: nat, w': bv32)
    requires j < 32 && w' == w | Mask(j)
    ensures Bit(w', j) && forall k: nat :: k < 32 && k != j ==> (Bit(w', k) <==> Bit(w, k))
  {
    SetSame(w, j);
    forall k: nat | k < 32 && k != j ensures Bit(w', k) <==> Bit(w, k) {
      SetApart(w, j, k);
    }
  }

  lemma ClearOthers(w: bv32, j: nat, w': bv32)
    requires j < 32 && w' == w & !Mask(j)
    ensures !Bit(w', j) && forall k: nat :: k < 32 && k != j ==> (Bit(w', k) <==> Bit(w, k))
  {
    ClearSame(w, j);
    forall k: nat | k < 32 && k != j ensures Bit(w', k) <==> Bit(w, k) {
      ClearApart(w, j, k);
    }
  }

  /** Setting a bit by mask changes that bit and no other. */
  lemma SetBit(w: bv32, j: nat, w': bv32)
    requires j < 32 && w' == w | Mask(j)
    ensures Bits(w') == Bits(w) + {j}
  {
    SetOthers(w, j, w');
    OneBit(w, w', j);
  }

  /** Clearing it, likewise. */
  lemma ClearBit(w: bv32, j: nat, w': bv32)
    requires j < 32 && w' == w & !Mask(j)
    ensures Bits(w') == Bits(w) - {j}
  {
    ClearOthers(w, j, w');
    OneBit(w, w', j);
  }

  lemma NoBits()
    ensures Bits(0) == {}
  {
    forall k: nat | k < 32 ensures !Bit(0, k) {
      MaskNonzero(k);
      SameMask(0, Mask(k));
    }
  }

  /** The ids whose bit is set. */
  ghost function Members(words: seq<bv32>): set<int>
    requires |words| == WORDS
  {
    set id | 0 < id < GB_MAX_BUFS && id % 32 in Bits(words[id / 32])
  }

  /** Each id has a bit of its own. */
  lemma MembersUpdate(words: seq<bv32>, id: int, w: bv32)
    requires |words| == WORDS && IdOk(id)
    ensures Bits(w) == Bits(words[id / 32]) + {id % 32} ==> Members(words[id / 32 := w]) == Members(words) + {id}
    ensures Bits(w) == Bits(words[id / 32]) - {id % 32} ==> Members(words[id / 32 := w]) == Members(words) - {id}
  {
    forall k: int | IdOk(k) ensures k == id <==> k / 32 == id / 32 && k % 32 == id % 32 {
    }
  }

  /** The ids that were given to a handle. */
  ghost function OwnedBy(owner: map<int, FileContext>, h: FileContext): set<int> {
    set id | id in owner && owner[id] == h
  }

  lemma OwnedByMore(owner: map<int, FileContext>, id: int, ctx: FileContext, h: FileContext)
    requires id !in owner
    ensures OwnedBy(owner[id := ctx], h) == OwnedBy(owner, h) + (if h == ctx then {id} else {})
  {
  }

  lemma OwnedByFewer(owner: map<int, FileContext>, id: int, ctx: FileContext, h: FileContext)
    requires id in owner && owner[id] == ctx
    ensures OwnedBy(owner - {id}, h) == OwnedBy(owner, h) - (if h == ctx then {id} else {})
  {
  }

  /** GB_FILE_CONTEXT. */
  class FileContext {
    const words: array<bv32>
    var ownedCount: int

    ghost predicate Sized() {
      words.Length == WORDS
    }

    /** GbFileContextOwnsBuf. */
    method OwnsBuf(id: int) returns (owns: bool)
      requires Sized()
      ensures owns <==> id in Owned()
    {
      owns := 0 < id < GB_MAX_BUFS && Bit(words[id / 32], id % 32);
    }

    ghost function Owned(): set<int>
      requires Sized()
      reads words
    {
      Members(words[..])
    }

    /** The bits and the count are right. */
    ghost predicate Accurate(owner: map<int, FileContext>)
      requires Sized()
      reads this, words
    {
      Owned() == OwnedBy(owner, this) && ownedCount == |Owned()|
    }

    constructor ()
      ensures Sized() && fresh(words) && Owned() == {} && ownedCount == 0
    {
      words := new bv32[WORDS](_ => 0);
      ownedCount := 0;
      new;
      NoBits();
      assert forall i :: 0 <= i < WORDS ==> words[..][i] == 0;
    }

    /** GbFileContextSetBuf: the count goes up whether or not the bit was set. */
    method SetBuf(id: int)
      requires Sized()
      modifies this`ownedCount, words
      ensures Owned() == old(Owned()) + if IdOk(id) then {id} else {}
      ensures ownedCount == old(ownedCount) + if IdOk(id) then 1 else 0
    {
      if 0 < id < GB_MAX_BUFS {
        var w := words[id / 32] | Mask(id % 32);
        SetBit(words[id / 32], id % 32, w);
        MembersUpdate(words[..], id, w);
        words[id / 32] := w;
        ownedCount := ownedCount + 1;
        assert words[..] == old(words[..])[id / 32 := w];
      }
    }

    /** Set the bit of an id that is newly this handle's. */
    method TakeBuf(id: int, ghost owner: map<int, FileContext>, ghost more: map<int, FileContext>)
      requires Sized() && IdOk(id) && more == owner[id := this]
      modifies this`ownedCount, words
      ensures Owned() == old(Owned()) + {id}
      ensures old(Accurate(owner)) && id !in owner ==> Accurate(more)
    {
      SetBuf(id);
      if id !in owner {
        OwnedByMore(owner, id, this, this);
      }
    }

    /** Clear the bit of an id that is no longer this handle's. */
    method DropBuf(id: int, ghost owner: map<int, FileContext>, ghost fewer: map<int, FileContext>)
      requires Sized() && IdOk(id) && fewer == owner - {id}
      modifies this`ownedCount, words
      ensures Owned() == old(Owned()) - {id} && ownedCount == old(ownedCount) - 1
      ensures old(Accurate(owner)) && id in old(Owned()) ==> Accurate(fewer)
    {
      ClearBuf(id);
      if id in owner && owner[id] == this {
        OwnedByFewer(owner, id, this, this);
      }
    }

    /** GbFileContextClearBuf: the count goes down whether or not the bit was set. */
    method ClearBuf(id: int)
      requires Sized()
      modifies this`ownedCount, words
      ensures Owned() == old(Owned()) - if IdOk(id) then {id} else {}
      ensures ownedCount == old(ownedCount) - if IdOk(id) then 1 else 0
    {
      if 0 < id < GB_MAX_BUFS {
        var w := words[id / 32] & !Mask(id % 32);
        ClearBit(words[id / 32], id % 32, w);
        MembersUpdate(words[..], id, w);
        words[id / 32] := w;
        ownedCount := ownedCount - 1;
        assert words[..] == old(words[..])[id / 32 := w];
      }
    }
  }

  /** Giving an id to one handle, or taking it back, leaves the others accurate. */
  lemma OthersAccurate(handles: set<FileContext>, ctx: FileContext, owner: map<int, FileContext>, id: int)
    requires forall h :: h in handles && h != ctx ==> h.Sized() && h.Accurate(owner)
    ensures id !in owner ==> forall h :: h in handles && h != ctx ==> h.Accurate(owner[id := ctx])
    ensures id in owner && owner[id] == ctx ==> forall h :: h in handles && h != ctx ==> h.Accurate(owner - {id})
  {
    forall h | h in handles && h != ctx
      ensures id !in owner ==> h.Accurate(owner[id := ctx])
      ensures id in owner && owner[id] == ctx ==> h.Accurate(owner - {id})
    {
      if id !in owner {
        OwnedByMore(owner, id, ctx, h);
      } else if owner[id] == ctx {
        OwnedByFewer(owner, id, ctx, h);
      }
    }
  }

  /** The ids of the registered buffers. */
  ghost function LiveIds(table: seq<Option<Buf>>): set<int>
    requires |table| == GB_MAX_BUFS
  {
    set id | 0 < id < GB_MAX_BUFS && table[id].Some?
  }

  /** There is an id to register under: the next one, or else a free slot. */
  predicate Registers(table: seq<Option<Buf>>, next: int)
    requires |table| == GB_MAX_BUFS
  {
    IdOk(next + 1) || exists k :: 0 < k < GB_MAX_BUFS && table[k].None?
  }

  /** The id it is. */
  predicate IsNextId(table: seq<Option<Buf>>, next: int, id: int)
    requires |table| == GB_MAX_BUFS
  {
    && IdOk(id)
    && if IdOk(next + 1) then id == next + 1 else table[id].None? && forall k :: 0 < k < id ==> table[k].Some?
  }

  lemma LiveUpdate(table: seq<Option<Buf>>, id: int, slot: Option<Buf>)
    requires |table| == GB_MAX_BUFS && IdOk(id)
    ensures LiveIds(table[id := slot]) == if slot.Some? then LiveIds(table) + {id} else LiveIds(table) - {id}
    ensures slot.Some? && table[id].None? ==> |LiveIds(table[id := slot])| == |LiveIds(table)| + 1
    ensures slot.None? && table[id].Some? ==> |LiveIds(table[id := slot])| == |LiveIds(table)| - 1
  {
    assert LiveIds(table[id := slot]) == if slot.Some? then LiveIds(table) + {id} else LiveIds(table) - {id};
  }

  class Driver {
    const capBytes: nat
    const table: array<Option<Buf>>
    var nextBufId: int
    var activeBufs: int
    ghost var handles: set<FileContext>
    ghost var owner: map<int, FileContext>  // who was given each live id
    /** So far each handle has freed only its own ids, and no id was given out while in use. */
    ghost var orderly: bool

    ghost function Live(): set<int>
      requires table.Length == GB_MAX_BUFS
      reads table
    {
      LiveIds(table[..])
    }

    /** The bitmaps are separate objects of the right size. */
    ghost predicate Shaped()
      reads this, handles
    {
      && table.Length == GB_MAX_BUFS
      && (forall h :: h in handles ==> h.Sized())
      && (forall h, k :: h in handles && k in handles && h != k ==> h.words != k.words)
    }

    /** The bits of each handle are exactly the live ids it was given, and its count is their
      * number: so handles own disjoint live ids, and no live buffer is without an owner. */
    ghost predicate Partitioned()
      requires Shaped()
      reads this, table, handles, set h | h in handles :: h.words
    {
      && activeBufs == |Live()| && owner.Keys == Live()
      && (forall id :: id in owner ==> owner[id] in handles)
      && (forall h :: h in handles ==> h.Accurate(owner))
    }

    ghost predicate Valid()
      reads this, table, handles, set h | h in handles :: h.words
    {
      Shaped() && (orderly ==> Partitioned())
    }

    /** The counter has not wrapped: every id above it is free. */
    ghost predicate NotWrapped()
      requires table.Length == GB_MAX_BUFS
      reads this, table
    {
      0 <= nextBufId && forall id :: nextBufId < id < GB_MAX_BUFS ==> table[id].None?
    }

    constructor (capBytes: nat)
      ensures Valid() && orderly && handles == {} && NotWrapped() && fresh(table)
    {
      this.capBytes := capBytes;
      table := new Option<Buf>[GB_MAX_BUFS](_ => None);
      nextBufId, activeBufs, handles, owner, orderly := 0, 0, {}, map[], true;
      new;
      assert Live() == {};
    }

    /** GbRegisterBuf. Once the counter has reached the end of the table, the first free slot is
      * taken and counting resumes from there; the id counted to next is not checked to be free. */
    method RegisterBuf(buf: Buf) returns (id: int)
      requires table.Length == GB_MAX_BUFS
      modifies table, this`nextBufId, this`activeBufs
      ensures id == 0 || IdOk(id)
      ensures id == 0 ==> table[..] == old(table[..]) && activeBufs == old(activeBufs) && nextBufId == old(nextBufId) + 1
      ensures id != 0 ==> table[..] == old(table[..])[id := Some(buf)] && activeBufs == old(activeBufs) + 1 && nextBufId == id
      // Before the end the next id, free or not; then the first free slot, and 0 exactly when there is none.
      ensures IdOk(old(nextBufId) + 1) ==> id == old(nextBufId) + 1
      ensures !IdOk(old(nextBufId) + 1) ==> (id == 0 <==> forall k :: IdOk(k) ==> old(table[..])[k].Some?)
      ensures !IdOk(old(nextBufId) + 1) && id != 0 ==> old(table[..])[id].None? && forall k :: 0 < k < id ==> old(table[..])[k].Some?
      ensures old(NotWrapped()) && old(nextBufId) + 1 < GB_MAX_BUFS ==> id != 0 && old(table[..])[id].None? && NotWrapped()
    {
      nextBufId := nextBufId + 1;
      id := nextBufId;
      if id <= 0 || id >= GB_MAX_BUFS {
        id := 1;
        while id < GB_MAX_BUFS && table[id].Some?
          invariant 1 <= id <= GB_MAX_BUFS && forall k :: 0 < k < id ==> table[..][k].Some?
        {
          id := id + 1;
        }
        if id >= GB_MAX_BUFS {
          return 0;
        }
        nextBufId := id;
      }
      table[id] := Some(buf);
      activeBufs := activeBufs + 1;
    }

    /** GbFreeBuf, for a registered buffer. */
    method FreeBuf(id: int)
      requires table.Length == GB_MAX_BUFS && IdOk(id)
      modifies table, this`activeBufs
      ensures table[..] == old(table[..])[id := None] && activeBufs == old(activeBufs) - 1
    {
      table[id] := None;
      activeBufs := activeBufs - 1;
    }

    /** A process opens the device. */
    method Open() returns (ctx: FileContext)
      requires Valid()
      modifies this`handles
      ensures Valid() && fresh(ctx) && handles == old(handles) + {ctx} && ctx.Owned() == {}
    {
      ctx := new FileContext();
      handles := handles + {ctx};
      assert orderly ==> forall h :: h in old(handles) ==> h.Accurate(owner);
    }

    /** GB_IOCTL_ALLOC: `memory`, `mapped` and `output` say whether the system provided the pages,
      * mapped them into the process, and gave access to the output buffer. */
    method HandleAlloc(ctx: FileContext, size: nat, tier3: bool, memory: bool, mapped: bool, output: bool) returns (status: Status, id: int)
      requires Valid() && ctx in handles
      modifies this`nextBufId, this`activeBufs, this`owner, this`orderly, table, ctx, ctx.words
      ensures Valid()
      // Exactly when it succeeds, and why it does not.
      ensures status == Success <==> 0 < size <= capBytes && memory && mapped && output && Registers(old(table[..]), old(nextBufId))
      ensures status == InvalidParameter <==> size == 0 || size > capBytes
      ensures status == InsufficientResources <==> 0 < size <= capBytes && (!memory || !Registers(old(table[..]), old(nextBufId)))
      ensures status == MapFailed <==> 0 < size <= capBytes && memory && Registers(old(table[..]), old(nextBufId)) && !(mapped && output)
      ensures status == Success ==> IsNextId(old(table[..]), old(nextBufId), id)
      ensures status == Success ==> IdOk(id) && table[..] == old(table[..])[id := Some(Buf(size, tier3))]
                                    && ctx.Owned() == old(ctx.Owned()) + {id}
      ensures status != Success && old(orderly) && orderly ==> table[..] == old(table[..]) && ctx.Owned() == old(ctx.Owned())
      // An id is given out twice only after the counter has wrapped.
      ensures old(NotWrapped()) && old(nextBufId) + 1 < GB_MAX_BUFS ==> orderly == old(orderly) && NotWrapped()
    {
      status, id := InvalidParameter, 0;
      if size == 0 || size > capBytes {
        return;
      }
      if !memory {
        status := InsufficientResources;
        return;
      }
      ghost var before := table[..];
      status, id := TryRegister(Buf(size, tier3), mapped && output);
      orderly := orderly && (id == 0 || before[id].None?);
      if status == Success {
        Grant(ctx, id, before);
      } else {
        assert orderly ==> table[..] == before;
      }
    }

    /** Register a buffer and map it into the process; undo the registration if that fails. */
    method TryRegister(buf: Buf, usable: bool) returns (status: Status, id: int)
      requires table.Length == GB_MAX_BUFS
      modifies table, this`nextBufId, this`activeBufs
      ensures id == 0 || IdOk(id)
      ensures id != 0 <==> Registers(old(table[..]), old(nextBufId))
      ensures id != 0 ==> IsNextId(old(table[..]), old(nextBufId), id)
      ensures status == if id == 0 then InsufficientResources else if usable then Success else MapFailed
      ensures status == Success ==> id != 0 && table[..] == old(table[..])[id := Some(buf)] && activeBufs == old(activeBufs) + 1
      ensures status != Success ==> table[..] == (if id == 0 then old(table[..]) else old(table[..])[id := None]) && activeBufs == old(activeBufs)
      ensures old(NotWrapped()) && old(nextBufId) + 1 < GB_MAX_BUFS ==> id != 0 && old(table[..])[id].None? && NotWrapped()
    {
      id := RegisterBuf(buf);
      if id == 0 {
        status := InsufficientResources;
      } else if !usable {
        FreeBuf(id);
        status := MapFailed;
      } else {
        status := Success;
      }
    }

    /** Note in the handle's bitmap that it owns the id just registered. */
    method Grant(ctx: FileContext, id: int, ghost before: seq<Option<Buf>>)
      requires Shaped() && ctx in handles && IdOk(id)
      requires |before| == GB_MAX_BUFS && table[id].Some? && table[..] == before[id := table[id]]
      requires orderly ==> before[id].None? && activeBufs == |LiveIds(before)| + 1 && owner.Keys == LiveIds(before)
      requires orderly ==> (forall k :: k in owner ==> owner[k] in handles) && (forall h :: h in handles ==> h.Accurate(owner))
      modifies this`owner, ctx, ctx.words
      ensures Valid() && ctx.Owned() == old(ctx.Owned()) + {id}
    {
      LiveUpdate(before, id, table[id]);
      ghost var more := owner[id := ctx];
      assert orderly ==> more.Keys == Live() && activeBufs == |Live()|;
      AddTo(ctx, id, more);
    }

    /** Set the bit of an id that has just been registered. */
    method AddTo(ctx: FileContext, id: int, ghost more: map<int, FileContext>)
      requires Shaped() && ctx in handles && IdOk(id) && more == owner[id := ctx]
      requires orderly ==> more.Keys == Live() && activeBufs == |Live()|
      requires orderly ==> (forall k :: k in owner ==> owner[k] in handles) && (forall h :: h in handles ==> h.Accurate(owner))
      requires orderly ==> id !in owner
      modifies this`owner, ctx, ctx.words
      ensures Valid() && ctx.Owned() == old(ctx.Owned()) + {id}
    {
      if orderly {
        OthersAccurate(handles, ctx, owner, id);
      }
      ctx.TakeBuf(id, owner, more);
      owner := more;
    }

    /** GB_IOCTL_FREE. Nothing checks that the handle owns the buffer. */
    method HandleFree(ctx: FileContext, id: int) returns (status: Status)
      requires Valid() && ctx in handles
      modifies this`activeBufs, this`owner, this`orderly, table, ctx, ctx.words
      ensures Valid()
      ensures status == if IdOk(id) && old(table[..])[id].Some? then Success else NotFound
      ensures table[..] == if status == Success then old(table[..])[id := None] else old(table[..])
      ensures ctx.Owned() == if status == Success then old(ctx.Owned()) - {id} else old(ctx.Owned())
      ensures ctx.ownedCount == old(ctx.ownedCount) - if status == Success then 1 else 0
      ensures orderly <==> old(orderly) && (status == Success ==> id in old(ctx.Owned()))
      ensures old(NotWrapped()) ==> NotWrapped()
    {
      if !IdOk(id) || table[id].None? {
        return NotFound;
      }
      orderly := orderly && id in ctx.Owned();
      Forfeit(ctx, id);
      status := Success;
    }

    method Forfeit(ctx: FileContext, id: int)
      requires Valid() && ctx in handles && IdOk(id) && table[id].Some?
      requires orderly ==> id in ctx.Owned()
      modifies this`activeBufs, this`owner, table, ctx, ctx.words
      ensures Valid()
      ensures table[..] == old(table[..])[id := None]
      ensures ctx.Owned() == old(ctx.Owned()) - {id} && ctx.ownedCount == old(ctx.ownedCount) - 1
    {
      ghost var fewer, freed := owner - {id}, table[..][id := None];
      LiveUpdate(table[..], id, None);
      assert orderly ==> fewer.Keys == LiveIds(freed) && activeBufs - 1 == |LiveIds(freed)|;
      FreeBuf(id);
      DropFrom(ctx, id, fewer);
    }

    /** Clear the bit of an id whose buffer has just been freed. */
    method DropFrom(ctx: FileContext, id: int, ghost fewer: map<int, FileContext>)
      requires Shaped() && ctx in handles && IdOk(id) && fewer == owner - {id}
      requires orderly ==> fewer.Keys == Live() && activeBufs == |Live()|
      requires orderly ==> (forall k :: k in owner ==> owner[k] in handles) && (forall h :: h in handles ==> h.Accurate(owner))
      requires orderly ==> id in ctx.Owned()
      modifies this`owner, ctx, ctx.words
      ensures Valid() && ctx.Owned() == old(ctx.Owned()) - {id} && ctx.ownedCount == old(ctx.ownedCount) - 1
    {
      if orderly {
        OthersAccurate(handles, ctx, owner, id);
      }
      ctx.DropBuf(id, owner, fewer);
      owner := fewer;
    }

    /** GbEvtFileCleanup: a process closes its handle, or dies. The scan stops as soon as it has met
      * as many owned ids as the handle counts. */
    method Cleanup(ctx: FileContext)
      requires Valid() && ctx in handles
      modifies this`activeBufs, this`owner, this`handles, table
      ensures Valid() && handles == old(handles) - {ctx}
      ensures Released(old(table[..]), table[..], old(ctx.Owned()), old(ctx.ownedCount))
      // On orderly runs: exactly the buffers of the closing handle are freed.
      ensures orderly ==> forall id :: IdOk(id) ==> table[id] == if id in old(ctx.Owned()) then None else old(table[id])
      ensures orderly ==> activeBufs == old(activeBufs) - |old(ctx.Owned())|
    {
      ghost var rest, left, before, owned := handles - {ctx}, owner - ctx.Owned(), table[..], ctx.Owned();
      if orderly {
        LeftAfterClose(handles, ctx, owner, left);
      }
      ReleaseOwned(ctx);
      if orderly {
        AccurateRelease(before, table[..], owned, ctx.ownedCount);
      }
      Retire(rest, left);
    }

    /** The handles and owners that remain. */
    ghost method Retire(rest: set<FileContext>, left: map<int, FileContext>)
      requires Shaped() && rest <= handles
      requires orderly ==> activeBufs == |Live()| && left.Keys == Live() && (forall id :: id in left ==> left[id] in rest)
      requires orderly ==> forall h :: h in rest ==> h.Accurate(left)
      modifies this`handles, this`owner
      ensures Valid() && handles == rest
    {
      handles, owner := rest, left;
    }

    /** What the cleanup does to the buffers, for any count and any bits. */
    method ReleaseOwned(ctx: FileContext)
      requires table.Length == GB_MAX_BUFS && ctx.Sized()
      modifies this`activeBufs, table
      ensures Released(old(table[..]), table[..], ctx.Owned(), ctx.ownedCount)
      ensures activeBufs - |Live()| == old(activeBufs - |Live()|)
      // Every live buffer whose bit is set is freed exactly when each of them is reached.
      ensures ctx.Owned() * Live() == {} <==> ctx.Owned() * old(Live()) <= Reached(ctx.Owned(), ctx.ownedCount)
    {
      ghost var before := table[..];
      if ctx.ownedCount != 0 {
        FreeOwned(ctx);
      }
      ReleasedLive(before, table[..], ctx.Owned(), ctx.ownedCount);
    }

    method FreeOwned(ctx: FileContext)
      requires table.Length == GB_MAX_BUFS && ctx.Sized()
      modifies this`activeBufs, table
      ensures Released(old(table[..]), table[..], ctx.Owned(), ctx.ownedCount)
      ensures activeBufs - |Live()| == old(activeBufs - |Live()|)
    {
      ghost var owned, before := ctx.Owned(), table[..];
      var i, freed := 1, 0;
      assert Below(owned, 1) == {};
      while i < GB_MAX_BUFS && freed < ctx.ownedCount
        invariant 1 <= i <= GB_MAX_BUFS && freed == |Below(owned, i)|
        invariant Below(Reached(owned, ctx.ownedCount), i) == Below(owned, i)
        invariant Emptied(before, table[..], Below(owned, i))
        invariant activeBufs - |Live()| == old(activeBufs - |Live()|)
        decreases GB_MAX_BUFS - i
      {
        BelowNext(owned, i);
        ReachNext(owned, ctx.ownedCount, i);
        var owns := FreeIfOwned(ctx, i, before);
        freed := freed + if owns then 1 else 0;
        i := i + 1;
      }
      ScanEnds(owned, ctx.ownedCount, i);
    }

    method FreeIfOwned(ctx: FileContext, id: int, ghost before: seq<Option<Buf>>) returns (owns: bool)
      requires table.Length == GB_MAX_BUFS && ctx.Sized() && IdOk(id)
      requires Emptied(before, table[..], Below(ctx.Owned(), id))
      requires Below(ctx.Owned(), id + 1) == Below(ctx.Owned(), id) + if id in ctx.Owned() then {id} else {}
      modifies this`activeBufs, table
      ensures owns <==> id in ctx.Owned()
      ensures Emptied(before, table[..], Below(ctx.Owned(), id + 1))
      ensures activeBufs - |Live()| == old(activeBufs - |Live()|)
    {
      owns := ctx.OwnsBuf(id);
      if owns && table[id].Some? {
        LiveUpdate(table[..], id, None);
        FreeBuf(id);
      }
    }

    /** Freeing somebody else's id is accepted and miscounted: a handle with one buffer that does so
      * no longer counts it, and closing the handle leaves that buffer allocated for good. */
    method ForeignFreeLeaks(ctx: FileContext, id: int)
      requires Valid() && ctx in handles && ctx.ownedCount == 1
      requires IdOk(id) && table[id].Some? && id !in ctx.Owned()
      modifies this`activeBufs, this`owner, this`orderly, table, ctx, ctx.words
      ensures !orderly && table[..] == old(table[..])[id := None]
    {
      var status := HandleFree(ctx, id);
      ReleaseOwned(ctx);
    }

    /** Once every handle is closed, no buffer is left. */
    lemma NothingLeaks()
      requires Valid() && orderly && handles == {}
      ensures Live() == {} && activeBufs == 0
    {
      assert owner.Keys == {};
    }
  }

  ghost function Below(ids: set<int>, i: int): set<int> {
    set id | id in ids && id < i
  }

  lemma BelowNext(ids: set<int>, i: int)
    ensures |Below(ids, i + 1)| == |Below(ids, i)| + if i in ids then 1 else 0
  {
    assert Below(ids, i + 1) == Below(ids, i) + if i in ids then {i} else {};
  }

  /** The owned ids that a scan with this count reaches: those with fewer owned ids below them. */
  ghost function Reached(owned: set<int>, count: int): set<int> {
    set id | id in owned && |Below(owned, id)| < count
  }

  /** These slots have been emptied, and no others. */
  ghost predicate Emptied(before: seq<Option<Buf>>, after: seq<Option<Buf>>, gone: set<int>) {
    |after| == |before| && forall id :: 0 <= id < |before| ==> after[id] == if id in gone then None else before[id]
  }

  /** The exact effect of a cleanup. */
  ghost predicate Released(before: seq<Option<Buf>>, after: seq<Option<Buf>>, owned: set<int>, count: int) {
    Emptied(before, after, Reached(owned, count))
  }

  lemma {:induction false} BelowGrows(ids: set<int>, i: int, k: int)
    requires i <= k
    ensures |Below(ids, i)| <= |Below(ids, k)|
    decreases k - i
  {
    if i < k {
      BelowNext(ids, k - 1);
      BelowGrows(ids, i, k - 1);
    }
  }

  lemma ReachNext(owned: set<int>, count: int, i: int)
    requires |Below(owned, i)| < count && Below(Reached(owned, count), i) == Below(owned, i)
    ensures Below(Reached(owned, count), i + 1) == Below(owned, i + 1) == Below(owned, i) + if i in owned then {i} else {}
  {
    var reached := Reached(owned, count);
    assert Below(owned, i + 1) == Below(owned, i) + if i in owned then {i} else {};
    assert Below(reached, i + 1) == Below(reached, i) + if i in reached then {i} else {};
  }

  /** Where the scan ends, by the end of the table or by its count, nothing more is reached. */
  lemma ScanEnds(owned: set<int>, count: int, i: int)
    requires (forall id :: id in owned ==> IdOk(id)) && (i >= GB_MAX_BUFS || |Below(owned, i)| >= count)
    requires Below(Reached(owned, count), i) == Below(owned, i)
    ensures Below(owned, i) == Reached(owned, count)
  {
    forall id | id in Reached(owned, count) ensures id < i {
      if i <= id {
        BelowGrows(owned, i, id);
      }
    }
  }

  /** Every owned id is reached exactly when the count is not below their number. */
  lemma ReachedAll(owned: set<int>, count: int)
    requires forall id :: id in owned ==> IdOk(id)
    ensures Reached(owned, count) == owned <==> owned == {} || |owned| <= count
  {
    if |owned| <= count {
      forall id | id in owned ensures |Below(owned, id)| < count {
        BelowNext(owned, id);
        BelowGrows(owned, id + 1, GB_MAX_BUFS);
        assert Below(owned, GB_MAX_BUFS) == owned;
      }
    } else if owned != {} {
      assert Below(owned, GB_MAX_BUFS) == owned;
      var last := LastOwned(owned, GB_MAX_BUFS);
      assert last in owned && last !in Reached(owned, count);
    }
  }

  lemma {:induction false} LastOwned(owned: set<int>, i: nat) returns (last: int)
    requires (forall id :: id in owned ==> IdOk(id)) && |Below(owned, i)| == |owned| > 0
    ensures last in owned && |Below(owned, last)| == |owned| - 1
  {
    assert i == 0 ==> Below(owned, i) == {};
    BelowNext(owned, i - 1);
    last := i - 1;
    if last !in owned {
      last := LastOwned(owned, i - 1);
    }
  }

  lemma ReleasedLive(before: seq<Option<Buf>>, after: seq<Option<Buf>>, owned: set<int>, count: int)
    requires |before| == GB_MAX_BUFS && Released(before, after, owned, count)
    ensures LiveIds(after) == LiveIds(before) - Reached(owned, count)
    ensures owned * LiveIds(after) == {} <==> owned * LiveIds(before) <= Reached(owned, count)
  {
    assert LiveIds(after) == LiveIds(before) - Reached(owned, count);
    assert owned * LiveIds(after) == owned * LiveIds(before) - Reached(owned, count);
    EmptyDifference(owned * LiveIds(before), Reached(owned, count));
  }

  lemma EmptyDifference(a: set<int>, b: set<int>)
    ensures a - b == {} <==> a <= b
  {
    forall x | x in a && a - b == {} ensures x in b {
      assert x !in a - b;
    }
  }

  /** An accurate count frees all and only the handle's buffers. */
  lemma AccurateRelease(before: seq<Option<Buf>>, after: seq<Option<Buf>>, owned: set<int>, count: int)
    requires |before| == GB_MAX_BUFS && Released(before, after, owned, count)
    requires count == |owned| && owned <= LiveIds(before)
    ensures forall id :: IdOk(id) ==> after[id] == if id in owned then None else before[id]
    ensures LiveIds(after) == LiveIds(before) - owned && |LiveIds(after)| == |LiveIds(before)| - |owned|
  {
    ReachedAll(owned, count);
    LiveWithout(before, after, owned);
  }

  lemma LeftAfterClose(handles: set<FileContext>, ctx: FileContext, owner: map<int, FileContext>, left: map<int, FileContext>)
    requires forall h :: h in handles ==> h.Sized() && h.Accurate(owner)
    requires ctx in handles && left == owner - ctx.Owned() && forall id :: id in owner ==> owner[id] in handles
    ensures forall h :: h in handles && h != ctx ==> h.Accurate(left)
    ensures forall id :: id in left ==> left[id] in handles - {ctx}
  {
    forall h | h in handles && h != ctx ensures h.Accurate(left) {
      assert OwnedBy(left, h) == OwnedBy(owner, h);
    }
  }

  lemma LiveWithout(table: seq<Option<Buf>>, table': seq<Option<Buf>>, gone: set<int>)
    requires |table| == |table'| == GB_MAX_BUFS && gone <= LiveIds(table)
    requires forall id :: IdOk(id) ==> table'[id] == if id in gone then None else table[id]
    ensures LiveIds(table') == LiveIds(table) - gone && |LiveIds(table')| == |LiveIds(table)| - |gone|
  {
    assert LiveIds(table') == LiveIds(table) - gone;
  }
}
