/** The Linux module's two memory tiers: byte counters, buffer count, eviction list and page frames,
  * over runs of ioctls taken one at a time with buffer export succeeding. */
module TierAccounting {

  const PAGE_SIZE: nat := 0x1000
  const GB_HPAGE_SIZE: nat := 0x20_0000
  const GB_HPAGES_PER: nat := 512
  const GIB: nat := 0x4000_0000

  datatype Tier = T2 | T3

  datatype Buf = Buf(size: nat, tier: Tier, hugepages: bool, pinned: bool, npages: nat, nhpages: nat, id: nat, frozen: bool)

  datatype Errno = EINVAL | ENOMEM | ENOSPC | ENOENT | EFAULT | EMFILE | Kernel(code: int)

  datatype Result = Ok | Err(errno: Errno)

  datatype Advice = Cold | Hot | Freeze | Other

  /** What the system has to give: free memory, the descriptor, the two page vectors, and how many huge
    * and small pages it allocates before it fails. */
  datatype Supply = Supply(freeRam: nat, descriptor: bool, hugeVector: bool, huge: nat, smallVector: bool, small: nat)

  function Units(size: nat, unit: nat): nat
    requires unit > 0
  {
    (size + unit - 1) / unit
  }

  function RoundUp(size: nat, unit: nat): nat
    requires unit > 0
  {
    Units(size, unit) * unit
  }

  /** The least multiple of the unit that is not below the size. */
  lemma RoundUpIsLeast(size: nat, unit: nat)
    requires unit > 0
    ensures RoundUp(size, unit) % unit == 0 && size <= RoundUp(size, unit) < size + unit
  {
    var n := Units(size, unit);
    assert n * unit <= size + unit - 1 < n * unit + unit;
    MultipleMod(n, unit);
  }

  lemma MultipleMod(n: nat, unit: nat)
    requires unit > 0
    ensures n * unit % unit == 0
  {
    var x := n * unit;
    var q, m := x / unit, x % unit;
    var d := n - q;
    assert d * unit == m;
    Times(d, unit);
  }

  lemma Times(d: int, unit: nat)
    ensures d >= 1 ==> d * unit >= unit
    ensures d <= -1 ==> d * unit + unit <= 0
  {
  }

  // ----- Sums over the live buffers -----

  function Weight(b: Buf, tier: Tier): nat {
    if b.tier == tier then b.size else 0
  }

  ghost function Bytes(bufs: map<nat, Buf>, tier: Tier): nat
    decreases |bufs|
  {
    if bufs == map[] then 0 else
      var k :| k in bufs;
      Weight(bufs[k], tier) + Bytes(bufs - {k}, tier)
  }

  lemma {:induction false} BytesWithout(bufs: map<nat, Buf>, tier: Tier, k: nat)
    requires k in bufs
    ensures Bytes(bufs, tier) == Weight(bufs[k], tier) + Bytes(bufs - {k}, tier)
    decreases |bufs|
  {
    var x :| x in bufs && Bytes(bufs, tier) == Weight(bufs[x], tier) + Bytes(bufs - {x}, tier);
    if x != k {
      BytesWithout(bufs - {x}, tier, k);
      BytesWithout(bufs - {k}, tier, x);
      assert bufs - {x} - {k} == bufs - {k} - {x};
    }
  }

  lemma BytesWith(bufs: map<nat, Buf>, tier: Tier, k: nat, b: Buf)
    ensures Bytes(bufs[k := b], tier) == Weight(b, tier) + Bytes(bufs - {k}, tier)
    ensures k !in bufs ==> bufs - {k} == bufs
  {
    BytesWithout(bufs[k := b], tier, k);
    assert bufs[k := b] - {k} == bufs - {k};
  }

  lemma WithoutNew(before: map<nat, Buf>, r: nat, after: map<nat, Buf>)
    requires r !in before && r in after && after == before[r := after[r]]
    ensures before == after - {r}
  {
  }

  lemma WithNew(bufs: map<nat, Buf>, r: nat, b: Buf, before: map<nat, Buf>)
    requires before == bufs - {r}
    ensures bufs[r := b] - {r} == before
  {
  }

  lemma EnterBytes(bufs: map<nat, Buf>, r: nat, b: Buf, more: map<nat, Buf>)
    requires r !in bufs && more == bufs[r := b] && AllOk(bufs) && BufOk(b)
    ensures Bytes(more, T2) == Bytes(bufs, T2) + Weight(b, T2)
    ensures Bytes(more, T3) == Bytes(bufs, T3) + Weight(b, T3)
    ensures |more| == |bufs| + 1 && AllOk(more)
  {
    BytesWith(bufs, T2, r, b);
    BytesWith(bufs, T3, r, b);
  }

  lemma LeaveBytes(bufs: map<nat, Buf>, r: nat, fewer: map<nat, Buf>)
    requires r in bufs && fewer == bufs - {r} && AllOk(bufs)
    ensures Bytes(fewer, T2) == Bytes(bufs, T2) - Weight(bufs[r], T2)
    ensures Bytes(fewer, T3) == Bytes(bufs, T3) - Weight(bufs[r], T3)
    ensures |fewer| == |bufs| - 1 && AllOk(fewer)
  {
    BytesWithout(bufs, T2, r);
    BytesWithout(bufs, T3, r);
    assert fewer.Keys == bufs.Keys - {r};
  }

  /** A buffer changes tier or flags, not size. */
  lemma ChangeBytes(bufs: map<nat, Buf>, r: nat, b: Buf, after: map<nat, Buf>)
    requires r in bufs && after == bufs[r := b] && AllOk(bufs) && BufOk(b)
    ensures Bytes(after, T2) == Bytes(bufs, T2) - Weight(bufs[r], T2) + Weight(b, T2)
    ensures Bytes(after, T3) == Bytes(bufs, T3) - Weight(bufs[r], T3) + Weight(b, T3)
    ensures |after| == |bufs| && AllOk(after)
  {
    BytesWith(bufs, T2, r, b);
    BytesWith(bufs, T3, r, b);
    BytesWithout(bufs, T2, r);
    BytesWithout(bufs, T3, r);
    assert after.Keys == bufs.Keys;
  }

  // ----- The cap is checked before rounding -----

  /** A request that fits under the cap overshoots it by less than one huge page, rounded up; all
    * quantities but the request are whole pages. */
  lemma RoundedFits(used: nat, size: nat, cap: nat, pages: nat)
    requires pages == 1 || pages == GB_HPAGES_PER
    requires used * PAGE_SIZE + size <= cap * PAGE_SIZE
    ensures used * PAGE_SIZE + RoundUp(size, pages * PAGE_SIZE) <= (cap + pages - 1) * PAGE_SIZE
    ensures size <= RoundUp(size, pages * PAGE_SIZE)
  {
    var unit := pages * PAGE_SIZE;
    var n := (size + unit - 1) / unit;
    assert n * unit <= size + unit - 1 < n * unit + unit;
  }

  // ----- The eviction list -----

  function Without(list: seq<nat>, r: nat): seq<nat> {
    if list == [] then [] else if list[0] == r then Without(list[1..], r) else [list[0]] + Without(list[1..], r)
  }

  predicate Distinct(list: seq<nat>) {
    forall i, j :: 0 <= i < j < |list| ==> list[i] != list[j]
  }

  lemma SomeElement(list: seq<nat>)
    ensures list == [] || exists r :: r in list
  {
    assert list != [] ==> list[0] in list;
  }

  lemma DistinctCons(x: nat, list: seq<nat>)
    ensures Distinct(list) && x !in list ==> Distinct([x] + list)
  {
    if Distinct(list) && x !in list {
      var longer := [x] + list;
      forall i, j | 0 <= i < j < |longer| ensures longer[i] != longer[j] {
        assert longer[j] == list[j - 1];
      }
    }
  }

  lemma {:induction false} WithoutElements(list: seq<nat>, r: nat)
    requires Distinct(list)
    ensures forall q :: q in Without(list, r) <==> q in list && q != r
    ensures Distinct(Without(list, r))
  {
    if list != [] {
      var rest := list[1..];
      assert list == [list[0]] + rest && Distinct(rest);
      WithoutElements(rest, r);
      assert forall k :: 0 <= k < |rest| ==> rest[k] == list[k + 1] && list[0] != list[k + 1];
      DistinctCons(list[0], Without(rest, r));
    }
  }

  /** Taking a buffer off the list leaves the others in their order. */
  lemma {:induction false} WithoutSplit(front: seq<nat>, r: nat, back: seq<nat>)
    requires r !in front && r !in back
    ensures Without(front + [r] + back, r) == front + back && Without(front + back, r) == front + back
  {
    if front == [] {
      WithoutAbsent(back, r);
      assert ([] + [r] + back)[1..] == back && [] + back == back;
    } else {
      WithoutSplit(front[1..], r, back);
      assert (front + [r] + back)[1..] == front[1..] + [r] + back && (front + back)[1..] == front[1..] + back;
      assert [front[0]] + (front[1..] + back) == front + back;
    }
  }

  lemma {:induction false} WithoutAbsent(list: seq<nat>, r: nat)
    requires r !in list
    ensures Without(list, r) == list
  {
    if list != [] {
      WithoutAbsent(list[1..], r);
    }
  }

  /** No duplicates, only live buffers, and every tier 2 buffer. */
  ghost predicate ListOk(lru: seq<nat>, bufs: map<nat, Buf>) {
    && Distinct(lru) && (forall r :: r in lru ==> r in bufs)
    && (forall r :: r in bufs && bufs[r].tier == T2 ==> r in lru)
  }

  /** Ids and buffers agree. */
  ghost predicate IdsOk(idr: map<nat, nat>, bufs: map<nat, Buf>) {
    && (forall id :: id in idr ==> id > 0 && idr[id] in bufs && bufs[idr[id]].id == id)
    && (forall r :: r in bufs && bufs[r].id > 0 ==> bufs[r].id in idr && idr[bufs[r].id] == r)
  }

  predicate BufOk(b: Buf) {
    && b.size == b.npages * PAGE_SIZE
    && (b.hugepages ==> b.npages == b.nhpages * GB_HPAGES_PER && !b.pinned)
  }

  /** Both counters are whole numbers of pages. */
  lemma {:induction false} BytesArePages(bufs: map<nat, Buf>, tier: Tier) returns (pages: nat)
    requires AllOk(bufs)
    ensures Bytes(bufs, tier) == pages * PAGE_SIZE
    decreases |bufs|
  {
    pages := 0;
    if bufs != map[] {
      var k :| k in bufs;
      BytesWithout(bufs, tier, k);
      assert BufOk(bufs[k]);
      pages := BytesArePages(bufs - {k}, tier);
      pages := pages + if bufs[k].tier == tier then bufs[k].npages else 0;
    }
  }

  ghost predicate AllOk(bufs: map<nat, Buf>) {
    forall r :: r in bufs ==> BufOk(bufs[r])
  }

  lemma IdsAdd(idr: map<nat, nat>, bufs: map<nat, Buf>, r: nat, b: Buf, more: map<nat, Buf>)
    requires IdsOk(idr, bufs) && r !in bufs && b.id == 0 && more == bufs[r := b]
    ensures IdsOk(idr, more)
  {
  }

  lemma IdsRegister(idr: map<nat, nat>, bufs: map<nat, Buf>, r: nat, id: nat)
    requires IdsOk(idr, bufs) && r in bufs && bufs[r].id == 0 && id > 0 && id !in idr
    ensures IdsOk(idr[id := r], bufs[r := bufs[r].(id := id)])
  {
  }

  lemma IdsRemove(idr: map<nat, nat>, bufs: map<nat, Buf>, r: nat, ids: map<nat, nat>, fewer: map<nat, Buf>)
    requires IdsOk(idr, bufs) && r in bufs && fewer == bufs - {r}
    requires ids == if bufs[r].id > 0 then idr - {bufs[r].id} else idr
    ensures IdsOk(ids, fewer)
  {
  }

  lemma ListAdd(lru: seq<nat>, bufs: map<nat, Buf>, r: nat, b: Buf, longer: seq<nat>, more: map<nat, Buf>)
    requires ListOk(lru, bufs) && r !in bufs && longer == lru + [r] && more == bufs[r := b]
    ensures ListOk(longer, more)
  {
    forall i, j | 0 <= i < j < |longer| ensures longer[i] != longer[j] {
      assert longer[i] in lru;
    }
  }

  lemma ListRemove(lru: seq<nat>, bufs: map<nat, Buf>, r: nat, rest: seq<nat>, fewer: map<nat, Buf>)
    requires ListOk(lru, bufs) && rest == Without(lru, r) && fewer == bufs - {r}
    ensures ListOk(rest, fewer)
  {
    WithoutElements(lru, r);
  }

  lemma ListDemote(lru: seq<nat>, bufs: map<nat, Buf>, r: nat, after: map<nat, Buf>)
    requires ListOk(lru, bufs) && r in bufs && after == bufs[r := bufs[r].(tier := T3)]
    ensures ListOk(Without(lru, r), after)
  {
    WithoutElements(lru, r);
  }

  lemma IdsKept(idr: map<nat, nat>, bufs: map<nat, Buf>, r: nat, b: Buf, after: map<nat, Buf>)
    requires IdsOk(idr, bufs) && r in bufs && after == bufs[r := b] && b.id == bufs[r].id
    ensures IdsOk(idr, after)
  {
  }

  /** Moving a live buffer to either end, or taking a tier 3 buffer off. */
  lemma ListMove(lru: seq<nat>, bufs: map<nat, Buf>, r: nat)
    requires ListOk(lru, bufs) && r in bufs
    ensures ListOk([r] + Without(lru, r), bufs) && ListOk(Without(lru, r) + [r], bufs)
    ensures bufs[r].tier == T3 ==> ListOk(Without(lru, r), bufs)
  {
    WithoutElements(lru, r);
    var tail := Without(lru, r);
    var head := [r] + tail;
    forall i, j | 0 <= i < j < |head| ensures head[i] != head[j] {
      assert head[j] == tail[j - 1] && tail[j - 1] in tail;
    }
    var back := tail + [r];
    forall i, j | 0 <= i < j < |back| ensures back[i] != back[j] {
      assert back[i] == tail[i] && tail[i] in tail;
    }
  }

  class GbDevice {
    const virtualVramGb: nat
    const nvmePoolGb: nat
    const safetyReserveGb: nat
    const useHugepages: bool
    var poolAllocated: int
    var nvmeAllocated: int
    var activeBufs: int
    var oomActive: bool
    var lru: seq<nat>          // buffers by address, head first
    var idr: map<nat, nat>     // id to buffer
    var bufs: map<nat, Buf>    // the live buffers
    ghost var frames: int      // page frames allocated or pinned, in 4K units
    ghost var evicted: bool    // EVICT has moved bytes into tier 3

    function T2Cap(): nat {
      virtualVramGb * GIB
    }

    function T3Cap(): nat {
      nvmePoolGb * GIB
    }

    /** The counters agree with the live buffers, `extra` bytes of frames not being accounted for yet. */
    ghost predicate Balanced(extra: int)
      reads this
    {
      && poolAllocated == Bytes(bufs, T2) && nvmeAllocated == Bytes(bufs, T3)
      && activeBufs == |bufs| && frames * PAGE_SIZE == poolAllocated + nvmeAllocated + extra
      && AllOk(bufs)
    }

    /** Tier 2 overshoots its cap by less than a huge page; tier 3 does not, unless by eviction. */
    ghost predicate Capped()
      reads this
    {
      && poolAllocated <= T2Cap() + GB_HPAGE_SIZE - PAGE_SIZE
      && (!evicted ==> nvmeAllocated <= T3Cap())
    }

    ghost predicate Valid()
      reads this
    {
      Balanced(0) && Capped() && ListOk(lru, bufs) && IdsOk(idr, bufs)
    }

    constructor (virtualVramGb: nat, nvmePoolGb: nat, safetyReserveGb: nat, useHugepages: bool)
      ensures Valid() && !evicted && bufs == map[]
    {
      this.virtualVramGb, this.nvmePoolGb, this.safetyReserveGb, this.useHugepages := virtualVramGb, nvmePoolGb, safetyReserveGb, useHugepages;
      poolAllocated, nvmeAllocated, activeBufs, oomActive := 0, 0, 0, false;
      lru, idr, bufs, frames, evicted := [], map[], map[], 0, false;
    }

    /** Allocate `count` runs of `each` frames, of which the system provides `good`; if one fails, free
      * those already allocated. */
    method AllocFrames(count: nat, each: nat, good: nat) returns (ok: bool)
      modifies this`frames
      ensures ok <==> count <= good
      ensures frames == old(frames) + if ok then count * each else 0
    {
      ok := true;
      var i := 0;
      while ok && i < count
        invariant i <= count && frames == old(frames) + i * each
        invariant i <= good && (!ok ==> i == good && i < count)
        decreases count - i, ok
      {
        ok := i < good;
        if ok {
          frames := frames + each;
          assert (i + 1) * each == i * each + each;
          i := i + 1;
        }
      }
      if !ok {
        for j := 0 to i
          invariant frames == old(frames) + (i - j) * each
        {
          assert (i - j) * each == (i - (j + 1)) * each + each;
          frames := frames - each;
        }
      }
    }

    /** Account for a buffer whose frames are in place, and put it at the tail of the list. */
    method Enter(r: nat, b: Buf)
      requires Balanced(b.size) && Capped() && ListOk(lru, bufs) && IdsOk(idr, bufs)
      requires r !in bufs && BufOk(b) && b.id == 0
      requires if b.tier == T2 then poolAllocated + b.size <= T2Cap() + GB_HPAGE_SIZE - PAGE_SIZE else nvmeAllocated + b.size <= T3Cap()
      modifies this`poolAllocated, this`nvmeAllocated, this`activeBufs, this`lru, this`bufs
      ensures Valid() && bufs == old(bufs)[r := b] && lru == old(lru) + [r]
      ensures poolAllocated == old(poolAllocated) + Weight(b, T2)
    {
      var longer, more := lru + [r], bufs[r := b];
      EnterBytes(bufs, r, b, more);
      ListAdd(lru, bufs, r, b, longer, more);
      IdsAdd(idr, bufs, r, b, more);
      Link(b, longer, more);
    }

    method Link(b: Buf, longer: seq<nat>, more: map<nat, Buf>)
      requires Capped() && |more| == activeBufs + 1 && frames * PAGE_SIZE == poolAllocated + nvmeAllocated + b.size
      requires Bytes(more, T2) == poolAllocated + Weight(b, T2) && Bytes(more, T3) == nvmeAllocated + Weight(b, T3)
      requires if b.tier == T2 then poolAllocated + b.size <= T2Cap() + GB_HPAGE_SIZE - PAGE_SIZE else nvmeAllocated + b.size <= T3Cap()
      requires AllOk(more) && ListOk(longer, more) && IdsOk(idr, more)
      modifies this`poolAllocated, this`nvmeAllocated, this`activeBufs, this`lru, this`bufs
      ensures Valid() && bufs == more && lru == longer
      ensures poolAllocated == old(poolAllocated) + Weight(b, T2)
    {
      if b.tier == T3 {
        nvmeAllocated := nvmeAllocated + b.size;
      } else {
        poolAllocated := poolAllocated + b.size;
      }
      lru, bufs, activeBufs := longer, more, activeBufs + 1;
    }

    // ----- Allocating -----

    /** The 2 MB page path is taken, and the system has the pages. */
    predicate HugeServed(size: nat, noHuge: bool, supply: Supply)
      reads this
    {
      && poolAllocated + size <= T2Cap() && useHugepages && !noHuge
      && supply.hugeVector && Units(size, GB_HPAGE_SIZE) <= supply.huge
    }

    /** A buffer of this size can be had: enough free memory, room under a cap, and the pages. */
    predicate Allocates(size: nat, noHuge: bool, supply: Supply)
      reads this
    {
      && supply.freeRam >= safetyReserveGb * GIB + size && supply.descriptor
      && (poolAllocated + size <= T2Cap() || nvmeAllocated + size <= T3Cap())
      && (HugeServed(size, noHuge, supply) || (supply.smallVector && Units(size, PAGE_SIZE) <= supply.small))
    }

    /** gb_alloc_buf. The cap of tier 2 is checked on the bytes asked for, before rounding. */
    method AllocBuf(size: nat, noHuge: bool, frozen: bool, supply: Supply, r: nat) returns (res: Result)
      requires Valid() && r !in bufs
      modifies this
      ensures Valid() && evicted == old(evicted) && idr == old(idr)
      ensures res.Err? ==> res.errno in {ENOMEM, ENOSPC} && bufs == old(bufs) && lru == old(lru) && frames == old(frames)
      ensures res.Ok? ==> r in bufs && bufs == old(bufs)[r := bufs[r]] && lru == old(lru) + [r]
      ensures res.Ok? ==> frames == old(frames) + bufs[r].npages && poolAllocated == old(poolAllocated) + Weight(bufs[r], T2)
      ensures res.Ok? ==> bufs[r].tier == (if old(poolAllocated) + size > T2Cap() then T3 else T2) && bufs[r].id == 0
      ensures res.Ok? ==> size <= bufs[r].size == RoundUp(size, if bufs[r].hugepages then GB_HPAGE_SIZE else PAGE_SIZE)
      ensures res.Ok? ==> bufs[r].frozen == frozen && !bufs[r].pinned
      ensures res.Ok? ==> (bufs[r].hugepages <==> bufs[r].tier == T2 && useHugepages && !noHuge
                                                  && supply.hugeVector && Units(size, GB_HPAGE_SIZE) <= supply.huge)
      ensures supply.freeRam < safetyReserveGb * GIB + size ==> res == Err(ENOMEM)
      ensures oomActive <==> old(oomActive) || supply.freeRam < safetyReserveGb * GIB + size
      ensures res == Err(ENOSPC) <==> supply.freeRam >= safetyReserveGb * GIB + size
                                      && old(poolAllocated) + size > T2Cap() && old(nvmeAllocated) + size > T3Cap()
      // Exactly when it succeeds.
      ensures res == Ok <==>
                && supply.freeRam >= safetyReserveGb * GIB + size && supply.descriptor
                && (old(poolAllocated) + size <= T2Cap() || old(nvmeAllocated) + size <= T3Cap())
                && (old(HugeServed(size, noHuge, supply)) || (supply.smallVector && Units(size, PAGE_SIZE) <= supply.small))
      ensures res == Ok <==> old(Allocates(size, noHuge, supply))
      // Exactly when it takes tier 2 over its cap.
      ensures res == Ok && bufs[r].tier == T2 ==>
                (poolAllocated > T2Cap() <==> bufs[r].hugepages && old(poolAllocated) + RoundUp(size, GB_HPAGE_SIZE) > T2Cap())
    {
      if supply.freeRam < safetyReserveGb * GIB + size {
        oomActive := true;
        return Err(ENOMEM);
      }
      var tier := T2;
      if poolAllocated + size > T2Cap() {
        if nvmeAllocated + size > T3Cap() {
          return Err(ENOSPC);
        }
        tier := T3;
      }
      if !supply.descriptor {
        return Err(ENOMEM);
      }
      var done := Place(size, tier, noHuge, frozen, supply, r);
      res := if done then Ok else Err(ENOMEM);
    }

    /** The 2 MB path if it may be taken, and the 4 KB path if that fails or may not. */
    method Place(size: nat, tier: Tier, noHuge: bool, frozen: bool, supply: Supply, r: nat) returns (done: bool)
      requires Valid() && r !in bufs
      requires if tier == T2 then poolAllocated + size <= T2Cap() else poolAllocated + size > T2Cap() && nvmeAllocated + size <= T3Cap()
      modifies this`poolAllocated, this`nvmeAllocated, this`activeBufs, this`lru, this`bufs, this`frames
      ensures Valid()
      ensures done <==> old(HugeServed(size, noHuge, supply)) || (supply.smallVector && Units(size, PAGE_SIZE) <= supply.small)
      ensures !done ==> bufs == old(bufs) && lru == old(lru) && frames == old(frames)
      ensures done ==> r in bufs && bufs == old(bufs)[r := bufs[r]] && lru == old(lru) + [r]
      ensures done ==> frames == old(frames) + bufs[r].npages && poolAllocated == old(poolAllocated) + Weight(bufs[r], T2)
      ensures done ==> bufs[r].frozen == frozen && !bufs[r].pinned
      ensures done ==> bufs[r].tier == tier && bufs[r].id == 0 && (bufs[r].hugepages <==> old(HugeServed(size, noHuge, supply)))
      ensures done ==> size <= bufs[r].size == RoundUp(size, if bufs[r].hugepages then GB_HPAGE_SIZE else PAGE_SIZE)
      ensures done && tier == T2 && !bufs[r].hugepages ==> poolAllocated <= T2Cap()
    {
      done := false;
      if tier == T2 {
        FitsTier2(size, PAGE_SIZE);
        if useHugepages && !noHuge {
          done := PlaceHuge(size, frozen, supply, r);
        }
      }
      if !done {
        done := PlaceSmall(size, tier, frozen, supply, r);
      }
    }

    /** The 2 MB page path. */
    method PlaceHuge(size: nat, frozen: bool, supply: Supply, r: nat) returns (done: bool)
      requires Valid() && r !in bufs && poolAllocated + size <= T2Cap()
      modifies this`poolAllocated, this`nvmeAllocated, this`activeBufs, this`lru, this`bufs, this`frames
      ensures Valid() && (done <==> supply.hugeVector && Units(size, GB_HPAGE_SIZE) <= supply.huge)
      ensures !done ==> bufs == old(bufs) && lru == old(lru) && frames == old(frames)
                        && poolAllocated == old(poolAllocated) && nvmeAllocated == old(nvmeAllocated)
      ensures done ==> r in bufs && bufs == old(bufs)[r := bufs[r]] && lru == old(lru) + [r] && frames == old(frames) + bufs[r].npages
      ensures done ==> bufs[r].frozen == frozen && !bufs[r].pinned
      ensures done ==> bufs[r].tier == T2 && bufs[r].id == 0 && bufs[r].hugepages && size <= bufs[r].size == RoundUp(size, GB_HPAGE_SIZE)
      ensures done ==> poolAllocated == old(poolAllocated) + bufs[r].size
    {
      var nhp := Units(size, GB_HPAGE_SIZE);
      FitsTier2(size, GB_HPAGE_SIZE);
      done := false;
      if supply.hugeVector {
        done := AllocFrames(nhp, GB_HPAGES_PER, supply.huge);
        if done {
          Enter(r, Buf(nhp * GB_HPAGE_SIZE, T2, true, false, nhp * GB_HPAGES_PER, nhp, 0, frozen));
        }
      }
    }

    /** The 4 KB page path, the fallback of tier 2 and the only one of tier 3. */
    method PlaceSmall(size: nat, tier: Tier, frozen: bool, supply: Supply, r: nat) returns (done: bool)
      requires Valid() && r !in bufs
      requires if tier == T2 then poolAllocated + size <= T2Cap() else nvmeAllocated + size <= T3Cap()
      modifies this`poolAllocated, this`nvmeAllocated, this`activeBufs, this`lru, this`bufs, this`frames
      ensures Valid() && (done <==> supply.smallVector && Units(size, PAGE_SIZE) <= supply.small)
      ensures !done ==> bufs == old(bufs) && lru == old(lru) && frames == old(frames)
      ensures done ==> r in bufs && bufs == old(bufs)[r := bufs[r]] && lru == old(lru) + [r] && frames == old(frames) + bufs[r].npages
      ensures done ==> bufs[r].frozen == frozen && !bufs[r].pinned
      ensures done ==> bufs[r].tier == tier && bufs[r].id == 0 && !bufs[r].hugepages && size <= bufs[r].size == RoundUp(size, PAGE_SIZE)
      ensures done ==> poolAllocated == old(poolAllocated) + Weight(bufs[r], T2)
    {
      var np := Units(size, PAGE_SIZE);
      if tier == T2 {
        FitsTier2(size, PAGE_SIZE);
      } else {
        FitsTier3(size);
      }
      done := false;
      if supply.smallVector {
        done := AllocFrames(np, 1, supply.small);
        if done {
          Enter(r, Buf(np * PAGE_SIZE, tier, false, false, np, 0, 0, frozen));
        }
      }
    }

    lemma FitsTier2(size: nat, unit: nat)
      requires Balanced(0) && poolAllocated + size <= T2Cap() && (unit == PAGE_SIZE || unit == GB_HPAGE_SIZE)
      ensures poolAllocated + RoundUp(size, unit) <= T2Cap() + unit - PAGE_SIZE && size <= RoundUp(size, unit)
    {
      var used := BytesArePages(bufs, T2);
      RoundedFits(used, size, virtualVramGb * 0x4_0000, unit / PAGE_SIZE);
    }

    lemma FitsTier3(size: nat)
      requires Balanced(0) && nvmeAllocated + size <= T3Cap()
      ensures nvmeAllocated + RoundUp(size, PAGE_SIZE) <= T3Cap() && size <= RoundUp(size, PAGE_SIZE)
    {
      var used := BytesArePages(bufs, T3);
      RoundedFits(used, size, nvmePoolGb * 0x4_0000, 1);
    }

    /** All pages of the range are pinned, and fit under the cap. */
    predicate Pins(size: nat, descriptor: bool, got: int)
      reads this
    {
      poolAllocated + RoundUp(size, PAGE_SIZE) <= T2Cap() && descriptor && got == Units(size, PAGE_SIZE)
    }

    /** gb_pin_user_buf: the cap is checked on the rounded size; pages pinned in vain are unpinned. */
    method PinUserBuf(size: nat, frozen: bool, descriptor: bool, r: nat, got: int) returns (res: Result)
      requires Valid() && r !in bufs && got <= Units(size, PAGE_SIZE)
      modifies this
      ensures Valid() && evicted == old(evicted) && idr == old(idr)
      ensures res.Err? ==> bufs == old(bufs) && lru == old(lru) && frames == old(frames)
      ensures res.Err? ==> res.errno == if got < 0 && descriptor && old(poolAllocated) + RoundUp(size, PAGE_SIZE) <= T2Cap() then Kernel(got) else ENOMEM
      ensures res == Ok <==> old(poolAllocated) + RoundUp(size, PAGE_SIZE) <= T2Cap() && descriptor && got == Units(size, PAGE_SIZE)
      ensures res.Ok? ==> r in bufs && bufs == old(bufs)[r := bufs[r]] && lru == old(lru) + [r]
      ensures res.Ok? ==> frames == old(frames) + bufs[r].npages
      ensures res.Ok? ==> bufs[r].tier == T2 && bufs[r].pinned && bufs[r].frozen == frozen && bufs[r].id == 0 && bufs[r].size == RoundUp(size, PAGE_SIZE)
      ensures res.Ok? ==> poolAllocated <= T2Cap() && got * PAGE_SIZE == bufs[r].size
    {
      var np := Units(size, PAGE_SIZE);
      if poolAllocated + np * PAGE_SIZE > T2Cap() {
        return Err(ENOMEM);
      }
      if !descriptor {
        return Err(ENOMEM);
      }
      var pinned := PinPages(np, got);
      if !pinned {
        return Err(if got < 0 then Kernel(got) else ENOMEM);
      }
      Enter(r, Buf(np * PAGE_SIZE, T2, false, true, np, 0, 0, frozen));
      res := Ok;
    }

    /** pin_user_pages pinned `got` of `np` pages, or failed: anything short is undone. */
    method PinPages(np: nat, got: int) returns (pinned: bool)
      requires got <= np
      modifies this`frames
      ensures pinned <==> got == np
      ensures frames == old(frames) + if pinned then np else 0
    {
      frames := frames + if got > 0 then got else 0;
      pinned := got == np;
      if !pinned {
        var i := 0;
        while i < got
          invariant i <= got || got < 0
          invariant frames == old(frames) + if got > 0 then got - i else 0
        {
          frames := frames - 1;
          i := i + 1;
        }
      }
    }

    // ----- Releasing -----

    /** gb_release: runs when the last reference to the exported buffer goes. */
    method Release(r: nat)
      requires Valid() && r in bufs
      modifies this
      ensures Valid() && evicted == old(evicted)
      ensures bufs == old(bufs) - {r} && lru == Without(old(lru), r)
      ensures frames == old(frames) - old(bufs)[r].npages
    {
      var b := bufs[r];
      assert BufOk(b);
      Forget(r);
      FreeFrames(if b.hugepages then b.nhpages else b.npages, if b.hugepages then GB_HPAGES_PER else 1);
    }

    /** Take the buffer off the list, the ids and the books. */
    method Forget(r: nat)
      requires Valid() && r in bufs
      modifies this`lru, this`idr, this`bufs, this`activeBufs, this`poolAllocated, this`nvmeAllocated
      ensures Balanced(old(bufs)[r].size) && Capped() && ListOk(lru, bufs) && IdsOk(idr, bufs)
      ensures bufs == old(bufs) - {r} && lru == Without(old(lru), r)
    {
      var b, fewer, rest := bufs[r], bufs - {r}, Without(lru, r);
      var ids := if b.id > 0 then idr - {b.id} else idr;
      ListRemove(lru, bufs, r, rest, fewer);
      IdsRemove(idr, bufs, r, ids, fewer);
      LeaveBytes(bufs, r, fewer);
      Unlink(b, rest, ids, fewer);
    }

    method Unlink(b: Buf, rest: seq<nat>, ids: map<nat, nat>, fewer: map<nat, Buf>)
      requires Capped() && activeBufs == |fewer| + 1 && frames * PAGE_SIZE == poolAllocated + nvmeAllocated
      requires poolAllocated == Bytes(fewer, T2) + Weight(b, T2) && nvmeAllocated == Bytes(fewer, T3) + Weight(b, T3)
      requires AllOk(fewer) && ListOk(rest, fewer) && IdsOk(ids, fewer)
      modifies this`lru, this`idr, this`bufs, this`activeBufs, this`poolAllocated, this`nvmeAllocated
      ensures Balanced(b.size) && Capped() && ListOk(lru, bufs) && IdsOk(idr, bufs)
      ensures bufs == fewer && lru == rest
    {
      if b.tier == T3 {
        nvmeAllocated := nvmeAllocated - b.size;
      } else {
        poolAllocated := poolAllocated - b.size;
      }
      lru, idr, bufs, activeBufs := rest, ids, fewer, activeBufs - 1;
    }

    method FreeFrames(count: nat, each: nat)
      modifies this`frames
      ensures frames == old(frames) - count * each
    {
      for i := 0 to count
        invariant frames == old(frames) - i * each
      {
        assert (i + 1) * each == i * each + each;
        frames := frames - each;
      }
    }

    // ----- The ioctls -----

    /** Register a new buffer under an id and hand a descriptor to the caller. Failures before the
      * descriptor exists undo the allocation; after it, the caller owns the buffer. */
    method Export(r: nat, id: nat, registered: bool, installed: bool, copied: bool, ghost before: map<nat, Buf>) returns (res: Result)
      requires Valid() && r in bufs && bufs[r].id == 0 && before == bufs - {r}
      requires registered ==> id > 0 && id !in idr
      modifies this
      ensures Valid() && evicted == old(evicted)
      ensures res.Err? && res.errno != EFAULT ==> bufs == before && frames == old(frames) - old(bufs)[r].npages
      ensures res == Ok || res == Err(EFAULT) ==> r in bufs && bufs[r] == old(bufs)[r].(id := id) && bufs - {r} == before && id in idr && idr[id] == r
      ensures res == if !registered then Err(ENOMEM) else if !installed then Err(EMFILE) else if !copied then Err(EFAULT) else Ok
    {
      if !registered {
        Release(r);
        return Err(ENOMEM);
      }
      WithNew(bufs, r, bufs[r].(id := id), before);
      Register(r, id);
      res := Install(r, installed, copied, before);
    }

    /** The descriptor, and the copy of the result to the caller. */
    method Install(r: nat, installed: bool, copied: bool, ghost before: map<nat, Buf>) returns (res: Result)
      requires Valid() && r in bufs && before == bufs - {r}
      modifies this
      ensures Valid() && evicted == old(evicted)
      ensures res == if !installed then Err(EMFILE) else if copied then Ok else Err(EFAULT)
      ensures res == Err(EMFILE) ==> bufs == before && frames == old(frames) - old(bufs)[r].npages
      ensures res != Err(EMFILE) ==> bufs == old(bufs) && idr == old(idr) && frames == old(frames)
    {
      if !installed {
        Release(r);
        return Err(EMFILE);
      }
      res := if copied then Ok else Err(EFAULT);
    }

    method Register(r: nat, id: nat)
      requires Valid() && r in bufs && bufs[r].id == 0 && id > 0 && id !in idr
      modifies this`idr, this`bufs
      ensures Valid() && bufs == old(bufs)[r := old(bufs)[r].(id := id)] && idr == old(idr)[id := r]
    {
      var b := bufs[r].(id := id);
      var named, ids := bufs[r := b], idr[id := r];
      assert BufOk(bufs[r]);
      ChangeBytes(bufs, r, b, named);
      IdsRegister(idr, bufs, r, id);
      idr, bufs := ids, named;
    }

    /** GB_IOCTL_ALLOC. `received` says whether the request could be read from the caller. */
    method IoctlAlloc(received: bool, size: nat, noHuge: bool, frozen: bool, supply: Supply, r: nat,
                      id: nat, registered: bool, installed: bool, copied: bool) returns (res: Result)
      requires Valid() && r !in bufs
      requires registered ==> id > 0 && id !in idr
      modifies this
      ensures Valid() && evicted == old(evicted)
      ensures !received ==> res == Err(EFAULT)
      ensures received && (size == 0 || size > T2Cap()) ==> res == Err(EINVAL)
      ensures !received || (res.Err? && res.errno != EFAULT) ==> bufs == old(bufs) && frames == old(frames)
      ensures received && (res == Ok || res == Err(EFAULT)) ==> r in bufs && bufs - {r} == old(bufs) && size <= bufs[r].size
      // Exactly when it succeeds, and when it fails after the buffer was allocated.
      ensures res == Ok <==> received && 0 < size <= T2Cap() && old(Allocates(size, noHuge, supply)) && registered && installed && copied
      ensures res == Err(EMFILE) <==> received && 0 < size <= T2Cap() && old(Allocates(size, noHuge, supply)) && registered && !installed
      ensures res == Err(EFAULT) <==>
                !received || (0 < size <= T2Cap() && old(Allocates(size, noHuge, supply)) && registered && installed && !copied)
      // The buffer is the one asked for, under its id.
      ensures received && (res == Ok || res == Err(EFAULT)) ==>
                && id in idr && idr[id] == r && bufs[r].id == id && bufs[r].frozen == frozen && !bufs[r].pinned
                && bufs[r].tier == (if old(poolAllocated) + size > T2Cap() then T3 else T2)
                && (bufs[r].hugepages <==> bufs[r].tier == T2 && useHugepages && !noHuge
                                           && supply.hugeVector && Units(size, GB_HPAGE_SIZE) <= supply.huge)
                && bufs[r].size == RoundUp(size, if bufs[r].hugepages then GB_HPAGE_SIZE else PAGE_SIZE)
    {
      if !received {
        return Err(EFAULT);
      }
      if size == 0 || size > T2Cap() {
        return Err(EINVAL);
      }
      ghost var before := bufs;
      res := AllocBuf(size, noHuge, frozen, supply, r);
      if res == Ok {
        WithoutNew(before, r, bufs);
        res := Export(r, id, registered, installed, copied, before);
      }
    }

    /** GB_IOCTL_PIN_USER_PTR. */
    method IoctlPin(received: bool, vaddr: nat, size: nat, frozen: bool, descriptor: bool, r: nat, got: int,
                    id: nat, registered: bool, installed: bool, copied: bool) returns (res: Result)
      requires Valid() && r !in bufs && got <= Units(size, PAGE_SIZE)
      requires registered ==> id > 0 && id !in idr
      modifies this
      ensures Valid() && evicted == old(evicted)
      ensures !received ==> res == Err(EFAULT)
      ensures received && (size == 0 || vaddr == 0 || size > T2Cap()) ==> res == Err(EINVAL)
      ensures !received || (res.Err? && res.errno != EFAULT) ==> bufs == old(bufs) && frames == old(frames)
      ensures received && (res == Ok || res == Err(EFAULT)) ==> r in bufs && bufs - {r} == old(bufs) && bufs[r].pinned
      ensures res == Ok <==> received && vaddr != 0 && 0 < size <= T2Cap() && old(Pins(size, descriptor, got)) && registered && installed && copied
      ensures res == Err(EMFILE) <==> received && vaddr != 0 && 0 < size <= T2Cap() && old(Pins(size, descriptor, got)) && registered && !installed
      ensures res == Err(EFAULT) <==>
                !received || (vaddr != 0 && 0 < size <= T2Cap() && old(Pins(size, descriptor, got)) && registered && installed && !copied)
      ensures received && (res == Ok || res == Err(EFAULT)) ==>
                && id in idr && idr[id] == r && bufs[r].id == id && bufs[r].frozen == frozen
                && bufs[r].tier == T2 && bufs[r].size == RoundUp(size, PAGE_SIZE) == got * PAGE_SIZE
    {
      if !received {
        return Err(EFAULT);
      }
      if size == 0 || vaddr == 0 || size > T2Cap() {
        return Err(EINVAL);
      }
      ghost var before := bufs;
      res := PinUserBuf(size, frozen, descriptor, r, got);
      if res == Ok {
        WithoutNew(before, r, bufs);
        res := Export(r, id, registered, installed, copied, before);
      }
    }

    /** GB_IOCTL_MADVISE. HOT and COLD put the buffer back on the list even if it had been evicted. */
    method Madvise(id: nat, advice: Advice) returns (res: Result)
      requires Valid()
      modifies this`lru, this`bufs
      ensures Valid()
      ensures res == if id !in idr then Err(ENOENT) else if advice == Other then Err(EINVAL) else Ok
      ensures res.Err? ==> lru == old(lru) && bufs == old(bufs)
      ensures res == Ok ==> lru == match advice
                                   case Hot => [idr[id]] + Without(old(lru), idr[id])
                                   case Cold => Without(old(lru), idr[id]) + [idr[id]]
                                   case _ => old(lru)
      ensures res == Ok ==> bufs == if advice == Freeze then old(bufs)[idr[id] := old(bufs)[idr[id]].(frozen := true)] else old(bufs)
    {
      if id !in idr {
        return Err(ENOENT);
      }
      var r := idr[id];
      ListMove(lru, bufs, r);
      res := Ok;
      match advice {
        case Hot => lru := [r] + Without(lru, r);
        case Cold => lru := Without(lru, r) + [r];
        case Freeze => Mark(r);
        case Other => res := Err(EINVAL);
      }
    }

    method Mark(r: nat)
      requires Valid() && r in bufs
      modifies this`bufs
      ensures Valid() && bufs == old(bufs)[r := old(bufs)[r].(frozen := true)]
    {
      var b := bufs[r].(frozen := true);
      var after := bufs[r := b];
      assert BufOk(bufs[r]);
      ChangeBytes(bufs, r, b, after);
      bufs := after;
    }

    /** GB_IOCTL_EVICT: the bytes of a tier 2 buffer move to tier 3, whatever tier 3 holds already and
      * whether or not the buffer is frozen; it leaves the list. */
    method Evict(id: nat) returns (res: Result)
      requires Valid()
      modifies this
      ensures Valid()
      ensures res == if id in old(idr) then Ok else Err(ENOENT)
      ensures idr == old(idr) && frames == old(frames) && poolAllocated + nvmeAllocated == old(poolAllocated + nvmeAllocated)
      ensures bufs == (if id in old(idr) then old(bufs)[old(idr)[id] := old(bufs)[old(idr)[id]].(tier := T3)] else old(bufs))
      ensures lru == (if id in old(idr) && old(bufs)[old(idr)[id]].tier == T2 then Without(old(lru), old(idr)[id]) else old(lru))
      ensures evicted <==> old(evicted) || (id in old(idr) && old(bufs)[old(idr)[id]].tier == T2)
    {
      if id !in idr {
        return Err(ENOENT);
      }
      var r := idr[id];
      if bufs[r].tier == T2 {
        Demote(r);
      } else {
        assert bufs[r].(tier := T3) == bufs[r];
      }
      res := Ok;
    }

    method Demote(r: nat)
      requires Valid() && r in bufs && bufs[r].tier == T2
      modifies this`poolAllocated, this`nvmeAllocated, this`bufs, this`lru, this`evicted
      ensures Valid() && evicted
      ensures bufs == old(bufs)[r := old(bufs)[r].(tier := T3)] && lru == Without(old(lru), r)
      ensures poolAllocated == old(poolAllocated) - old(bufs)[r].size && nvmeAllocated == old(nvmeAllocated) + old(bufs)[r].size
    {
      var b, size, rest := bufs[r].(tier := T3), bufs[r].size, Without(lru, r);
      var after := bufs[r := b];
      assert BufOk(bufs[r]);
      ChangeBytes(bufs, r, b, after);
      ListDemote(lru, bufs, r, after);
      IdsKept(idr, bufs, r, b, after);
      poolAllocated, nvmeAllocated := poolAllocated - size, nvmeAllocated + size;
      bufs, lru, evicted := after, rest, true;
    }

    /** When the last descriptor is closed, nothing is left on the books and no frame is held. */
    lemma NothingLeft()
      requires Valid() && bufs == map[]
      ensures poolAllocated == nvmeAllocated == activeBufs == frames == 0 && lru == [] && idr == map[]
    {
      SomeElement(lru);
      assert forall id :: id !in idr;
    }
  }

  // ----- Whole runs -----

  datatype Call =
    | Alloc(size: nat, noHuge: bool, frozen: bool)
    | Pin(vaddr: nat, size: nat, frozen: bool)
    | Advise(id: nat, advice: Advice)
    | EvictId(id: nat)
    | CloseAll(buffer: nat)  // the last reference to an exported buffer goes

  lemma {:induction false} SomeFree(taken: set<nat>)
    ensures exists n: nat :: 0 < n && n !in taken
  {
    var n := Above(taken);
    assert n !in taken;
  }

  ghost function Above(taken: set<nat>): (n: nat)
    ensures 0 < n && forall k :: k in taken ==> k < n
    decreases |taken|
  {
    if taken == {} then 1 else
      var k :| k in taken;
      assert forall j :: j in taken ==> j == k || j in taken - {k};
      var n := Above(taken - {k});
      if n <= k then k + 1 else n
  }

  /** Any sequence of calls, whatever memory the system finds and whichever steps fail in between. */
  method Session(d: GbDevice, calls: seq<Call>)
    requires d.Valid()
    modifies d
    ensures d.Valid()
    ensures d.poolAllocated == Bytes(d.bufs, T2) && d.nvmeAllocated == Bytes(d.bufs, T3) && d.activeBufs == |d.bufs|
    ensures d.poolAllocated <= d.T2Cap() + GB_HPAGE_SIZE - PAGE_SIZE
    ensures !old(d.evicted) && (forall k :: 0 <= k < |calls| ==> !calls[k].EvictId?) ==> d.nvmeAllocated <= d.T3Cap()
    ensures d.frames * PAGE_SIZE == d.poolAllocated + d.nvmeAllocated
  {
    for k := 0 to |calls|
      invariant d.Valid()
      invariant !old(d.evicted) && (forall j :: 0 <= j < k ==> !calls[j].EvictId?) ==> !d.evicted
    {
      Perform(d, calls[k]);
    }
  }

  method Perform(d: GbDevice, call: Call)
    requires d.Valid()
    modifies d
    ensures d.Valid()
    ensures d.evicted ==> old(d.evicted) || call.EvictId?
  {
    var supply: Supply, got: int, descriptor: bool, received: bool, registered: bool, installed: bool, copied: bool :| true;
    SomeFree(d.bufs.Keys);
    SomeFree(d.idr.Keys);
    var r: nat :| r !in d.bufs;
    var id: nat :| 0 < id && id !in d.idr;
    match call
    case Alloc(size, noHuge, frozen) =>
      var res := d.IoctlAlloc(received, size, noHuge, frozen, supply, r, id, registered, installed, copied);
    case Pin(vaddr, size, frozen) =>
      var np := Units(size, PAGE_SIZE);
      var res := d.IoctlPin(received, vaddr, size, frozen, descriptor, r, if got <= np then got else np, id, registered, installed, copied);
    case Advise(id, advice) =>
      var res := d.Madvise(id, advice);
    case EvictId(id) =>
      var res := d.Evict(id);
    case CloseAll(buffer) =>
      if buffer in d.bufs {
        d.Release(buffer);
      }
  }

  /** What the two requests below need. */
  predicate Ample(d: GbDevice, supply: Supply)
    reads d
  {
    && supply.freeRam >= d.safetyReserveGb * GIB + d.T2Cap() && supply.descriptor
    && supply.hugeVector && supply.huge >= 1 && supply.smallVector && supply.small * PAGE_SIZE >= d.T2Cap()
  }

  method FillTier2(d: GbDevice, supply: Supply, r: nat) returns (res: Result)
    requires d.Valid() && d.bufs == map[] && d.virtualVramGb > 0 && Ample(d, supply)
    modifies d
    ensures res == Ok && d.Valid() && d.bufs.Keys == {r} && d.poolAllocated == d.T2Cap() - PAGE_SIZE
  {
    d.NothingLeft();
    WholePages(d.virtualVramGb);
    res := d.AllocBuf(d.T2Cap() - PAGE_SIZE, true, false, supply, r);
  }

  /** The overshoot is reached: on an empty device, fill tier 2 with small pages up to one page below its
    * cap, then ask for one byte on the 2 MB path. The cap is passed by all of a huge page but one page. */
  method Overshoot(d: GbDevice, supply: Supply, r: nat, q: nat) returns (first: Result, second: Result)
    requires d.Valid() && d.bufs == map[] && d.useHugepages && d.virtualVramGb > 0 && Ample(d, supply) && r != q
    modifies d
    ensures first == Ok && second == Ok && d.Valid()
    ensures d.poolAllocated == d.T2Cap() + GB_HPAGE_SIZE - PAGE_SIZE
  {
    first := FillTier2(d, supply, r);
    OneByte();
    assert d.HugeServed(1, false, supply);
    second := d.AllocBuf(1, false, false, supply, q);
  }

  lemma OneByte()
    ensures Units(1, GB_HPAGE_SIZE) == 1 && RoundUp(1, GB_HPAGE_SIZE) == GB_HPAGE_SIZE
  {
  }

  /** The cap is a whole number of pages. */
  lemma WholePages(gb: nat)
    requires gb > 0
    ensures RoundUp(gb * GIB - PAGE_SIZE, PAGE_SIZE) == gb * GIB - PAGE_SIZE
    ensures Units(gb * GIB - PAGE_SIZE, PAGE_SIZE) * PAGE_SIZE <= gb * GIB
  {
    var pages := gb * 0x4_0000 - 1;
    assert gb * GIB - PAGE_SIZE == pages * PAGE_SIZE;
    assert (pages * PAGE_SIZE + PAGE_SIZE - 1) / PAGE_SIZE == pages;
  }
}
