/** What each allocator call keeps, what one call undoes, and safety over whole runs. */
module SpmpRuns {
  import opened Bits
  import opened Spmp
  import opened SpmpProofs

  // ---------- One call ----------

  lemma CreateEstablishesInv(lo: nat, size: nat)
    requires 0 < lo && 0 < size && lo + size <= ADDR_LIMIT
    ensures Inv(Create(lo, size))
  {
    var p := Create(lo, size);
    SumsOne(p.blocks[0]);
    forall x ensures Covered(p.blocks, x) <==> lo <= x < lo + size {
      assert p.blocks[0].Contains(x) <==> lo <= x < lo + size;
    }
  }

  /**
    The case in which the source runs out of slots after it has already filed the leading
    hole: one slot left, and the chosen block needs a hole on both sides.
   */
  predicate LeaksHole(p: Pool, size: nat, alignment: nat) {
    && size > 0
    && |p.blocks| == MAX_BLOCKS - 1
    && var k := NextFree(p.blocks, Needed(size), Alignment(alignment), 0);
       && k.Some?
       && var b := p.blocks[k.value];
          var at := AlignUp(b.addr, Alignment(alignment));
          b.addr < at && at + Needed(size) < b.End()
  }

  /** An allocation keeps the pool invariant exactly when it does not leak a hole. */
  lemma AllocKeepsInvIff(p: Pool, size: nat, alignment: nat)
    requires Inv(p)
    ensures Inv(Alloc(p, size, alignment).pool) <==> !LeaksHole(p, size, alignment)
  {
    hide AlignUp, Tiles, NoAdjacentFree, UsedSum, FreeSum;
    var r := Alloc(p, size, alignment);
    if r.status == Ok {
      AllocTakesRegion(p, size, alignment);
    } else if LeaksHole(p, size, alignment) {
      LeakBreaksInv(p, size, alignment);
    }
  }

  /** The leaking call reports `NoSpace`, yet leaves the pool invariant broken. */
  lemma LeakBreaksInv(p: Pool, size: nat, alignment: nat)
    requires Inv(p) && LeaksHole(p, size, alignment)
    ensures Alloc(p, size, alignment).status == NoSpace
    ensures !Inv(Alloc(p, size, alignment).pool)
  {
    hide UsedSum, FreeSum, NoAdjacentFree, CoveredSet, AlignUp, Needed, NextFree;
    var k := NextFree(p.blocks, Needed(size), Alignment(alignment), 0).value;
    var bs := Alloc(p, size, alignment).pool.blocks;
    assert !Apart(bs[k], bs[|p.blocks|]);
  }

  /**
    A successful allocation: the address is a multiple of max(alignment, 16), the region was
    wholly free, it is now in use, and nothing else changed hands.
   */
  lemma AllocTakesRegion(p: Pool, size: nat, alignment: nat)
    requires Inv(p) && Alloc(p, size, alignment).status == Ok
    ensures var r := Alloc(p, size, alignment);
            && Inv(r.pool) && r.pool.lo == p.lo && r.pool.hi == p.hi
            && r.size == Needed(size) && (size <= TWO_64 - 16 ==> r.size >= size)
            && r.addr % (if alignment > 16 then alignment else 16) == 0
            && p.lo <= r.addr && r.addr + r.size <= p.hi
            && Interval(r.addr, r.size) <= FreeSet(p.blocks)
            && FreeSet(r.pool.blocks) == FreeSet(p.blocks) - Interval(r.addr, r.size)
            && (r.addr, r.size) !in UsedRanges(p.blocks)
            && UsedRanges(r.pool.blocks) == UsedRanges(p.blocks) + {(r.addr, r.size)}
            && r.pool.used == p.used + r.size
  {
    hide NoAdjacentFree, Disjoint, FreeSet, CoveredSet, UsedSum, FreeSum, UsedRanges, AlignUp, Needed, Alignment;
    if size < TWO_64 { NeededCoversRequest(size); }
    NeededPositive(size);
    AlignmentIs(alignment);
    var needed, align := Needed(size), Alignment(alignment);
    var bs, k := p.blocks, NextFree(p.blocks, needed, align, 0).value;
    var at := AlignUp(bs[k].addr, align);
    AlignUpIsLeast(bs[k].addr, align);
    CarveKeeps(bs, p.lo, p.hi, k, at, needed);
    CarveUsed(bs, p.lo, p.hi, k, at, needed);
  }

  lemma NeededPositive(size: nat)
    ensures Needed(size) > 0
  {
  }

  /**
    The block comes from the first free slot that has an aligned region of that size at all, and
    sits at the first such address in it.
   */
  lemma AllocFirstFit(p: Pool, size: nat, alignment: nat)
    requires Inv(p) && Alloc(p, size, alignment).status == Ok
    ensures var r, align := Alloc(p, size, alignment), if alignment > 16 then alignment else 16;
            exists k :: 0 <= k < |p.blocks| && FirstHolds(p.blocks, k, r.addr, r.size, align)
  {
    hide NoAdjacentFree, Disjoint, CoveredSet, UsedSum, FreeSum, AlignUp, Needed, Alignment, Carve, FirstHolds;
    AlignmentIs(alignment);
    var needed, align := Needed(size), Alignment(alignment);
    var k := NextFree(p.blocks, needed, align, 0).value;
    NextFreeHolds(p.blocks, needed, align);
    assert FirstHolds(p.blocks, k, AlignUp(p.blocks[k].addr, align), needed, align);
  }

  /**
    The table afterwards: slot k holds the allocation, what was left of its block before and behind
    it follows in new slots, in that order, and no other slot changes.
   */
  predicate CarvedAt(bs: seq<Block>, after: seq<Block>, k: nat, at: nat, size: nat)
    requires k < |bs|
  {
    var b := bs[k];
    var before, behind := b.addr < at, at + size < b.addr + b.size;
    && b.addr <= at && |after| == |bs| + (if before then 1 else 0) + (if behind then 1 else 0)
    && after[k] == Block(at, size, true) && (forall i :: 0 <= i < |bs| && i != k ==> after[i] == bs[i])
    && (before ==> after[|bs|] == Block(b.addr, at - b.addr, false))
    && (behind ==> after[|after| - 1] == Block(at + size, b.addr + b.size - (at + size), false))
  }

  lemma AllocTable(p: Pool, size: nat, alignment: nat)
    requires Alloc(p, size, alignment).status == Ok
    ensures var r := Alloc(p, size, alignment);
            && r.pool.used == (p.used + r.size) % 0x1_0000_0000_0000_0000
            && exists k :: 0 <= k < |p.blocks| && CarvedAt(p.blocks, r.pool.blocks, k, r.addr, r.size)
  {
    hide AlignUp, Needed, Alignment, CarvedAt;
    var k := NextFree(p.blocks, Needed(size), Alignment(alignment), 0).value;
    var at := AlignUp(p.blocks[k].addr, Alignment(alignment));
    AlignUpIsLeast(p.blocks[k].addr, Alignment(alignment));
    CarvedIs(p.blocks, k, at, Needed(size));
  }

  lemma CarvedIs(bs: seq<Block>, k: nat, at: nat, size: nat)
    requires k < |bs| && bs[k].addr <= at
    ensures CarvedAt(bs, Carve(bs, k, at, size), k, at, size)
  {
  }

  lemma NextFreeHolds(bs: seq<Block>, needed: nat, align: nat)
    requires align > 0 && NextFree(bs, needed, align, 0).Some?
    ensures var k := NextFree(bs, needed, align, 0).value;
            FirstHolds(bs, k, AlignUp(bs[k].addr, align), needed, align)
  {
    hide AlignUp;
    var k := NextFree(bs, needed, align, 0).value;
    AlignUpIsLeast(bs[k].addr, align);
    FitsPlaces(bs[k], AlignUp(bs[k].addr, align), needed, align);
    forall j, x | 0 <= j < k ensures !HoldsAt(bs[j], x, needed, align) {
      AlignUpIsLeast(bs[j].addr, align);
      if HoldsAt(bs[j], x, needed, align) { FitsPlaces(bs[j], x, needed, align); }
    }
    forall x | HoldsAt(bs[k], x, needed, align) ensures AlignUp(bs[k].addr, align) <= x { }
  }

  /** The block is free and has an aligned region of that length at x. */
  predicate HoldsAt(b: Block, x: nat, len: nat, align: nat)
    requires align > 0
  {
    !b.inUse && b.addr <= x && x + len <= b.addr + b.size && x % align == 0
  }

  lemma FitsPlaces(b: Block, x: nat, needed: nat, align: nat)
    requires align > 0 && b.addr <= AlignUp(b.addr, align) && AlignUp(b.addr, align) % align == 0
    ensures Fits(b, needed, align) ==> HoldsAt(b, AlignUp(b.addr, align), needed, align)
    ensures HoldsAt(b, x, needed, align) && AlignUp(b.addr, align) <= x ==> Fits(b, needed, align)
  {
    hide AlignUp;
  }

  /** Slot k holds a region at `at`, at no lower address, and no earlier slot holds any. */
  ghost predicate FirstHolds(bs: seq<Block>, k: nat, at: nat, len: nat, align: nat)
    requires align > 0 && k < |bs|
  {
    && HoldsAt(bs[k], at, len, align)
    && (forall x :: HoldsAt(bs[k], x, len, align) ==> at <= x)
    && forall j, x :: 0 <= j < k ==> !HoldsAt(bs[j], x, len, align)
  }

  /** The slot that first fit would take needs a hole on both sides, and one slot of 512 is left. */
  ghost predicate OneSlotShort(p: Pool, size: nat, align: nat)
    requires align > 0
  {
    |p.blocks| == 511 && exists k, at :: 0 <= k < |p.blocks| && ShortAt(p.blocks, k, at, Needed(size), align)
  }

  ghost predicate ShortAt(bs: seq<Block>, k: nat, at: nat, len: nat, align: nat)
    requires align > 0 && k < |bs|
  {
    FirstHolds(bs, k, at, len, align) && bs[k].addr < at && at + len < bs[k].addr + bs[k].size
  }

  lemma ShortIffLeaks(p: Pool, size: nat, alignment: nat)
    requires size > 0
    ensures OneSlotShort(p, size, Alignment(alignment)) <==> LeaksHole(p, size, alignment)
  {
    hide AlignUp, Needed, Alignment, FirstHolds;
    var bs, needed, align := p.blocks, Needed(size), Alignment(alignment);
    var first := NextFree(bs, needed, align, 0);
    if first.Some? {
      NextFreeHolds(bs, needed, align);
      var at := AlignUp(bs[first.value].addr, align);
      if LeaksHole(p, size, alignment) { assert ShortAt(bs, first.value, at, needed, align); }
    }
    if OneSlotShort(p, size, align) {
      var k, at :| 0 <= k < |bs| && ShortAt(bs, k, at, needed, align);
      SomeFits(bs, k, at, needed, align);
      FirstIsOne(bs, k, at, first.value, AlignUp(bs[first.value].addr, align), needed, align);
    }
  }

  lemma SomeFits(bs: seq<Block>, k: nat, at: nat, needed: nat, align: nat)
    requires align > 0 && k < |bs| && FirstHolds(bs, k, at, needed, align)
    ensures NextFree(bs, needed, align, 0).Some?
  {
    AlignUpIsLeast(bs[k].addr, align);
    FitsPlaces(bs[k], at, needed, align);
  }

  lemma FirstIsOne(bs: seq<Block>, k: nat, at: nat, j: nat, x: nat, len: nat, align: nat)
    requires align > 0 && k < |bs| && j < |bs| && FirstHolds(bs, k, at, len, align) && FirstHolds(bs, j, x, len, align)
    ensures k == j && at == x
  {
    hide HoldsAt;
  }

  /** When an allocation reports what. */
  lemma AllocOutcomes(p: Pool, size: nat, alignment: nat)
    requires Inv(p)
    ensures var s, align := Alloc(p, size, alignment).status, if alignment > 16 then alignment else 16;
            && (s == Invalid <==> size == 0)
            && (s == NoSpace <==> size > 0 && (|p.blocks| >= 512 || OneSlotShort(p, size, align)))
            && (s == NoMemory <==> size > 0 && |p.blocks| < 512 && !HasRegion(p.blocks, Needed(size), align))
            && s != NoEntry
  {
    hide Inv, AlignUp, Needed, Alignment, OneSlotShort, HasRegion, NextFree;
    AlignmentIs(alignment);
    if size > 0 {
      ShortIffLeaks(p, size, alignment);
      if |p.blocks| < 512 { NoMemoryIffNoRegion(p, size, alignment); }
    }
  }

  lemma CarveKeeps(bs: seq<Block>, lo: nat, hi: nat, k: nat, at: nat, needed: nat)
    requires Tiles(bs, lo, hi) && NoAdjacentFree(bs)
    requires k < |bs| && !bs[k].inUse && bs[k].addr <= at && needed > 0 && at + needed <= bs[k].End()
    ensures var cs := Carve(bs, k, at, needed);
            && Tiles(cs, lo, hi) && NoAdjacentFree(cs)
            && UsedSum(cs) == UsedSum(bs) + needed && FreeSum(cs) + needed == FreeSum(bs)
            && FreeSet(cs) == FreeSet(bs) - Interval(at, needed)
            && Interval(at, needed) <= FreeSet(bs) && lo <= at && at + needed <= hi
  {
    CarveSums(bs, k, at, needed);
    CarveDisjoint(bs, lo, hi, k, at, needed);
    assert InRange(bs[k], lo, hi);
    CarveFree(bs, lo, hi, k, at, needed);
    FreeBlockInterval(bs, k);
    assert Interval(at, needed) <= Interval(bs[k].addr, bs[k].size);
  }

  lemma CarveUsed(bs: seq<Block>, lo: nat, hi: nat, k: nat, at: nat, needed: nat)
    requires Disjoint(bs, lo, hi)
    requires k < |bs| && !bs[k].inUse && bs[k].addr <= at && needed > 0 && at + needed <= bs[k].End()
    ensures UsedRanges(Carve(bs, k, at, needed)) == UsedRanges(bs) + {(at, needed)}
    ensures (at, needed) !in UsedRanges(bs)
  {
    var cs := Carve(bs, k, at, needed);
    forall i | 0 <= i < |bs| && bs[i].inUse && bs[i].size > 0
      ensures (bs[i].addr, bs[i].size) in UsedRanges(cs) && (bs[i].addr, bs[i].size) != (at, needed)
    {
      assert cs[i] == bs[i] && Apart(bs[i], bs[k]);
    }
    assert cs[k] == Block(at, needed, true);
    forall i | 0 <= i < |cs| && cs[i].inUse && cs[i].size > 0
      ensures (cs[i].addr, cs[i].size) in UsedRanges(bs) + {(at, needed)}
    {
      CarveSlots(bs, k, at, needed, i);
    }
  }

  /** `NoMemory` means that the pool has no aligned free region of the rounded size, and conversely. */
  lemma NoMemoryIffNoRegion(p: Pool, size: nat, alignment: nat)
    requires Inv(p) && size > 0 && |p.blocks| < MAX_BLOCKS
    ensures Alloc(p, size, alignment).status == NoMemory <==>
            !HasRegion(p.blocks, Needed(size), if alignment > 16 then alignment else 16)
  {
    hide HasRegion, Inv, Needed, Alignment, NoAdjacentFree, Disjoint, Alloc;
    InvShape(p, size);
    AlignmentIs(alignment);
    NoMemoryIffNoFit(p, size, alignment);
    NoFitIffNoRegion(p.blocks, p.lo, p.hi, Needed(size), Alignment(alignment));
  }

  lemma InvShape(p: Pool, size: nat)
    requires Inv(p)
    ensures Disjoint(p.blocks, p.lo, p.hi) && NoAdjacentFree(p.blocks) && Needed(size) > 0
  {
    hide NoAdjacentFree, Disjoint, CoveredSet, UsedSum, FreeSum;
  }

  lemma NoMemoryIffNoFit(p: Pool, size: nat, alignment: nat)
    requires size > 0 && |p.blocks| < MAX_BLOCKS
    ensures Alloc(p, size, alignment).status == NoMemory
            <==> NextFree(p.blocks, Needed(size), Alignment(alignment), 0).None?
  {
    hide AlignUp, Needed;
  }

  /** Freeing succeeds exactly on live allocations, gives back exactly their addresses, and keeps the invariant. */
  lemma FreeGivesBack(p: Pool, addr: nat, size: nat)
    requires Inv(p)
    ensures var r := Free(p, addr, size);
            && Inv(r.pool) && r.pool.lo == p.lo && r.pool.hi == p.hi && |r.pool.blocks| == |p.blocks|
            && (r.status == Ok <==> (addr, size) in UsedRanges(p.blocks))
            && (r.status != Ok ==> r.pool == p && r.status == if addr == 0 then Invalid else NoEntry)
            && (r.status == Ok ==>
                  && UsedRanges(r.pool.blocks) == UsedRanges(p.blocks) - {(addr, size)}
                  && r.pool.used == p.used - size
                  && FreeSet(r.pool.blocks) == FreeSet(p.blocks) + Interval(addr, size))
  {
    hide NoAdjacentFree, Disjoint, FreeSet, CoveredSet, UsedSum, FreeSum, UsedRanges, CoalesceFrom;
    var bs := p.blocks;
    FreeFindsLive(p, addr, size);
    if Free(p, addr, size).status == Ok {
      var k := FindUsed(bs, addr, size, 0).value;
      var freed := bs[k := bs[k].(inUse := false)];
      ReleaseSlot(bs, p.lo, p.hi, k);
      CoalesceNormalises(freed, p.lo, p.hi);
      var cs := CoalesceFrom(freed, 0);
      assert ContentsOf(cs).free == FreeSet(cs) && ContentsOf(cs).covered == CoveredSet(cs);
      assert ContentsOf(cs).usedSize == UsedSum(cs) && ContentsOf(cs).freeSize == FreeSum(cs);
      assert ContentsOf(cs).usedRanges == UsedRanges(cs);
    }
  }

  lemma FreeFindsLive(p: Pool, addr: nat, size: nat)
    requires Inv(p)
    ensures Free(p, addr, size).status == Ok <==> (addr, size) in UsedRanges(p.blocks)
    ensures (addr, size) in UsedRanges(p.blocks) ==> addr > 0 && size > 0
  {
    var bs, k := p.blocks, FindUsed(p.blocks, addr, size, 0);
    if addr != 0 && k.Some? {
      assert InRange(bs[k.value], p.lo, p.hi);
      assert (bs[k.value].addr, bs[k.value].size) in UsedRanges(bs);
    }
    if (addr, size) in UsedRanges(bs) {
      var i :| 0 <= i < |bs| && bs[i].inUse && bs[i].size > 0 && bs[i].addr == addr && bs[i].size == size;
      assert InRange(bs[i], p.lo, p.hi) && bs[i] == Block(addr, size, true);
    }
  }

  lemma ReleaseSlot(bs: seq<Block>, lo: nat, hi: nat, k: nat)
    requires Disjoint(bs, lo, hi) && k < |bs| && bs[k].inUse && bs[k].size > 0
    ensures var freed := bs[k := bs[k].(inUse := false)];
            && Disjoint(freed, lo, hi)
            && UsedRanges(freed) == UsedRanges(bs) - {(bs[k].addr, bs[k].size)}
            && UsedSum(freed) == UsedSum(bs) - bs[k].size
            && FreeSum(freed) == FreeSum(bs) + bs[k].size
            && FreeSet(freed) == FreeSet(bs) + Interval(bs[k].addr, bs[k].size)
            && CoveredSet(freed) == CoveredSet(bs)
  {
    hide UsedSum, FreeSum, UsedRanges, Interval;
    SumsUpdate(bs, k, bs[k].(inUse := false));
    ReleaseSets(bs, k);
    ReleaseUsed(bs, lo, hi, k);
  }

  lemma ReleaseSets(bs: seq<Block>, k: nat)
    requires k < |bs| && bs[k].inUse
    ensures FreeSet(bs[k := bs[k].(inUse := false)]) == FreeSet(bs) + Interval(bs[k].addr, bs[k].size)
    ensures CoveredSet(bs[k := bs[k].(inUse := false)]) == CoveredSet(bs)
  {
    var freed := bs[k := bs[k].(inUse := false)];
    forall x
      ensures FreeAt(freed, x) <==> FreeAt(bs, x) || bs[k].Contains(x)
      ensures Covered(freed, x) <==> Covered(bs, x)
    {
      ReleaseAt(bs, k, x);
    }
  }

  lemma ReleaseUsed(bs: seq<Block>, lo: nat, hi: nat, k: nat)
    requires Disjoint(bs, lo, hi) && k < |bs| && bs[k].inUse && bs[k].size > 0
    ensures var freed := bs[k := bs[k].(inUse := false)];
            Disjoint(freed, lo, hi) && UsedRanges(freed) == UsedRanges(bs) - {(bs[k].addr, bs[k].size)}
  {
    var freed := bs[k := bs[k].(inUse := false)];
    forall i, j | 0 <= i < |freed| && 0 <= j < |freed| && i != j ensures Apart(freed[i], freed[j]) {
      assert Apart(bs[i], bs[j]);
    }
    forall i | 0 <= i < |freed| ensures InRange(freed[i], lo, hi) {
      assert InRange(bs[i], lo, hi);
    }
    forall i | 0 <= i < |bs| && bs[i].inUse && bs[i].size > 0 && i != k
      ensures (bs[i].addr, bs[i].size) in UsedRanges(freed)
      ensures (bs[i].addr, bs[i].size) != (bs[k].addr, bs[k].size)
    {
      assert freed[i] == bs[i] && Apart(bs[i], bs[k]);
    }
    forall i | 0 <= i < |freed| && freed[i].inUse && freed[i].size > 0
      ensures i != k && (freed[i].addr, freed[i].size) in UsedRanges(bs)
    {
      assert freed[i] == bs[i];
    }
  }

  lemma ReleaseAt(bs: seq<Block>, k: nat, x: int)
    requires k < |bs| && bs[k].inUse
    ensures FreeAt(bs[k := bs[k].(inUse := false)], x) <==> FreeAt(bs, x) || bs[k].Contains(x)
    ensures Covered(bs[k := bs[k].(inUse := false)], x) <==> Covered(bs, x)
  {
    var freed := bs[k := bs[k].(inUse := false)];
    assert forall i :: 0 <= i < |bs| ==> (freed[i].Contains(x) <==> bs[i].Contains(x));
    assert freed[k].Contains(x) <==> bs[k].Contains(x);
    if i :| 0 <= i < |bs| && !bs[i].inUse && bs[i].Contains(x) {
      assert freed[i] == bs[i];
    }
    if i :| 0 <= i < |freed| && !freed[i].inUse && freed[i].Contains(x) {
      assert i != k ==> bs[i] == freed[i];
    }
  }

  /**
    Allocating and freeing again restores the free ranges, the used ranges and the counter,
    although the ranges may sit in other slots.
   */
  lemma AllocFreeRoundTrip(p: Pool, size: nat, alignment: nat)
    requires Inv(p) && Alloc(p, size, alignment).status == Ok
    ensures var r := Alloc(p, size, alignment);
            var q := Free(r.pool, r.addr, r.size);
            && q.status == Ok && Inv(q.pool)
            && FreeRanges(q.pool.blocks) == FreeRanges(p.blocks)
            && UsedRanges(q.pool.blocks) == UsedRanges(p.blocks)
            && q.pool.used == p.used
  {
    var r := Alloc(p, size, alignment);
    AllocTakesRegion(p, size, alignment);
    FreeGivesBack(r.pool, r.addr, r.size);
    var q := Free(r.pool, r.addr, r.size);
    assert FreeSet(q.pool.blocks) == FreeSet(p.blocks);
    FreeRangesCanonical(q.pool.blocks, p.blocks, p.lo, p.hi);
  }

  // ---------- Runs ----------

  datatype Op = AllocOp(size: nat, alignment: nat) | FreeOp(addr: nat, size: nat)

  function Apply(p: Pool, op: Op): Pool {
    match op
    case AllocOp(size, alignment) => Alloc(p, size, alignment).pool
    case FreeOp(addr, size) => Free(p, addr, size).pool
  }

  function Run(p: Pool, ops: seq<Op>): Pool {
    if ops == [] then p else Apply(Run(p, ops[..|ops| - 1]), ops[|ops| - 1])
  }

  /** No call of the run hits the one failing case. */
  predicate NoLeak(p: Pool, ops: seq<Op>) {
    ops == [] ||
    (&& NoLeak(p, ops[..|ops| - 1])
     && var last := ops[|ops| - 1];
        last.AllocOp? ==> !LeaksHole(Run(p, ops[..|ops| - 1]), last.size, last.alignment))
  }

  /** The allocations that the caller holds, from the results of the calls alone. */
  function Live(p: Pool, ops: seq<Op>): set<(nat, nat)> {
    if ops == [] then {}
    else
      var before, last := ops[..|ops| - 1], ops[|ops| - 1];
      var q := Run(p, before);
      match last
      case AllocOp(size, alignment) =>
        var r := Alloc(q, size, alignment);
        if r.status == Ok then Live(p, before) + {(r.addr, r.size)} else Live(p, before)
      case FreeOp(addr, size) =>
        if Free(q, addr, size).status == Ok then Live(p, before) - {(addr, size)} else Live(p, before)
  }

  /** In every state a leak-free run reaches the invariant holds and the in-use blocks are the caller's. */
  lemma {:induction false} RunKeepsInv(lo: nat, size: nat, ops: seq<Op>)
    requires 0 < lo && 0 < size && lo + size <= ADDR_LIMIT
    requires NoLeak(Create(lo, size), ops)
    ensures Inv(Run(Create(lo, size), ops))
    ensures UsedRanges(Run(Create(lo, size), ops).blocks) == Live(Create(lo, size), ops)
  {
    var p := Create(lo, size);
    if ops == [] {
      CreateEstablishesInv(lo, size);
      assert UsedRanges(p.blocks) == {};
    } else {
      var before, last := ops[..|ops| - 1], ops[|ops| - 1];
      RunKeepsInv(lo, size, before);
      var q := Run(p, before);
      match last
      case AllocOp(n, alignment) =>
        AllocKeepsInvIff(q, n, alignment);
        if Alloc(q, n, alignment).status == Ok { AllocTakesRegion(q, n, alignment); }
      case FreeOp(addr, n) =>
        FreeGivesBack(q, addr, n);
    }
  }

  /**
    Slots are never reclaimed: the table only grows, and once it is full every later
    allocation is refused for lack of slots, whatever has been freed.
   */
  lemma {:induction false} SlotsNeverReclaimed(p: Pool, ops: seq<Op>, size: nat, alignment: nat)
    requires size > 0
    ensures |Run(p, ops).blocks| >= |p.blocks|
    ensures |p.blocks| >= MAX_BLOCKS ==> Alloc(Run(p, ops), size, alignment).status == NoSpace
  {
    if ops != [] {
      SlotsNeverReclaimed(p, ops[..|ops| - 1], size, alignment);
    }
  }
}
