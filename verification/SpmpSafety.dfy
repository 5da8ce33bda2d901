/** What a client can rely on over every run of calls, the ones that leak a hole included. */
module SpmpSafety {
  import opened Bits
  import opened Spmp
  import opened SpmpProofs
  import opened SpmpRuns

  // ---------- The blocks in use ----------

  predicate InUse(b: Block) { b.inUse && b.size > 0 }

  /** A table with everything but the blocks in use blotted out. */
  function UsedView(bs: seq<Block>): (v: seq<Option<Block>>)
    ensures |v| == |bs|
    ensures forall i :: 0 <= i < |bs| ==> v[i] == if InUse(bs[i]) then Some(bs[i]) else None
  {
    seq(|bs|, i requires 0 <= i < |bs| => if InUse(bs[i]) then Some(bs[i]) else None)
  }

  predicate Real(b: Block) { b == TOMBSTONE || (b.addr > 0 && b.size > 0) }

  predicate AllReal(bs: seq<Block>) { forall i :: 0 <= i < |bs| ==> Real(bs[i]) }

  /** Blocks in use lie in the pool and do not overlap; nothing is said of the free ones. */
  predicate UsedApart(bs: seq<Block>, lo: nat, hi: nat) {
    && (forall i :: 0 <= i < |bs| && InUse(bs[i]) ==> InRange(bs[i], lo, hi))
    && (forall i, j :: 0 <= i < |bs| && 0 <= j < |bs| && i != j && InUse(bs[i]) && InUse(bs[j]) ==> Apart(bs[i], bs[j]))
  }

  /** What holds between any two calls, even after a leak. */
  ghost predicate Safe(p: Pool) {
    && AllReal(p.blocks) && UsedApart(p.blocks, p.lo, p.hi)
    && p.used == UsedSum(p.blocks) && p.hi <= ADDR_LIMIT && UsedSum(p.blocks) <= p.hi - p.lo
    && (Inv(p) || |p.blocks| >= MAX_BLOCKS)
  }

  lemma {:induction false} SameViewSum(bs: seq<Block>, cs: seq<Block>)
    requires UsedView(bs) == UsedView(cs)
    ensures UsedSum(bs) == UsedSum(cs)
  {
    if bs != [] {
      var n := |bs| - 1;
      assert UsedView(bs)[n] == UsedView(cs)[n];
      forall i | 0 <= i < n ensures UsedView(bs[..n])[i] == UsedView(cs[..n])[i] {
        assert UsedView(bs)[i] == UsedView(cs)[i];
      }
      assert UsedView(bs[..n]) == UsedView(cs[..n]);
      SameViewSum(bs[..n], cs[..n]);
    }
  }

  lemma SameViewRanges(bs: seq<Block>, cs: seq<Block>)
    requires UsedView(bs) == UsedView(cs)
    ensures UsedRanges(bs) == UsedRanges(cs)
  {
    forall i | 0 <= i < |bs|
      ensures InUse(bs[i]) <==> InUse(cs[i])
      ensures InUse(bs[i]) ==> bs[i] == cs[i]
    {
      assert UsedView(bs)[i] == UsedView(cs)[i];
    }
  }

  lemma SameViewApart(bs: seq<Block>, cs: seq<Block>, lo: nat, hi: nat)
    requires UsedView(bs) == UsedView(cs) && UsedApart(bs, lo, hi)
    ensures UsedApart(cs, lo, hi)
  {
    forall i | 0 <= i < |bs|
      ensures InUse(bs[i]) <==> InUse(cs[i])
      ensures InUse(bs[i]) ==> bs[i] == cs[i]
    {
      assert UsedView(bs)[i] == UsedView(cs)[i];
    }
  }

  // ---------- Coalescing leaves them alone, in any table ----------

  predicate Gone(b: Block) { !b.inUse || b == TOMBSTONE }

  lemma MergeKeepsUsed(bs: seq<Block>, i: nat, j: nat)
    requires i < |bs| && j < |bs| && AllReal(bs) && Gone(bs[i])
    ensures var cs := MergeAt(bs, i, j); AllReal(cs) && Gone(cs[i]) && UsedView(cs) == UsedView(bs)
  {
  }

  lemma {:induction false} RowKeepsUsed(bs: seq<Block>, i: nat, j: nat)
    requires i < |bs| && j <= |bs| && AllReal(bs) && Gone(bs[i])
    ensures AllReal(CoalesceRow(bs, i, j)) && UsedView(CoalesceRow(bs, i, j)) == UsedView(bs)
    decreases |bs| - j
  {
    hide MergeAt, AllReal, UsedView, Gone;
    if j < |bs| {
      MergeKeepsUsed(bs, i, j);
      RowKeepsUsed(MergeAt(bs, i, j), i, j + 1);
    }
  }

  lemma {:induction false} PassKeepsUsed(bs: seq<Block>, i: nat)
    requires i <= |bs| && AllReal(bs)
    ensures AllReal(CoalesceFrom(bs, i)) && UsedView(CoalesceFrom(bs, i)) == UsedView(bs)
    decreases |bs| - i
  {
    hide CoalesceRow, AllReal, UsedView;
    if i < |bs| {
      if !bs[i].inUse { RowKeepsUsed(bs, i, 0); }
      PassKeepsUsed(if bs[i].inUse then bs else CoalesceRow(bs, i, 0), i + 1);
    }
  }

  // ---------- The calls ----------

  lemma InvIsSafe(p: Pool)
    requires Inv(p)
    ensures Safe(p)
  {
    assert forall i :: 0 <= i < |p.blocks| ==> InRange(p.blocks[i], p.lo, p.hi);
  }

  lemma ReleaseRanges(bs: seq<Block>, lo: nat, hi: nat, k: nat)
    requires k < |bs| && InUse(bs[k]) && UsedApart(bs, lo, hi) && AllReal(bs)
    ensures var freed := bs[k := bs[k].(inUse := false)];
            && UsedRanges(freed) == UsedRanges(bs) - {(bs[k].addr, bs[k].size)} && UsedApart(freed, lo, hi)
            && AllReal(freed) && UsedSum(freed) + bs[k].size == UsedSum(bs)
  {
    var freed := bs[k := bs[k].(inUse := false)];
    SumsUpdate(bs, k, bs[k].(inUse := false));
    forall i | 0 <= i < |bs| && InUse(bs[i]) && i != k
      ensures (bs[i].addr, bs[i].size) in UsedRanges(freed) && (bs[i].addr, bs[i].size) != (bs[k].addr, bs[k].size)
    {
      assert freed[i] == bs[i] && Apart(bs[i], bs[k]);
    }
    forall i | 0 <= i < |freed| && InUse(freed[i]) ensures i != k && (freed[i].addr, freed[i].size) in UsedRanges(bs) {
      assert freed[i] == bs[i];
    }
  }

  /** Freeing is safe in any state: it gives back exactly a live allocation, or does nothing. */
  lemma FreeIsSafe(p: Pool, addr: nat, size: nat)
    requires Safe(p)
    ensures var r := Free(p, addr, size);
            && Safe(r.pool) && r.pool.lo == p.lo && r.pool.hi == p.hi
            && (r.status == Ok <==> (addr, size) in UsedRanges(p.blocks))
            && UsedRanges(r.pool.blocks) == (if r.status == Ok then UsedRanges(p.blocks) - {(addr, size)}
                                             else UsedRanges(p.blocks))
  {
    hide CoalesceFrom, UsedSum, UsedView, Inv;
    if Inv(p) {
      FreeGivesBack(p, addr, size);
      InvIsSafe(Free(p, addr, size).pool);
    } else {
      var k := FindUsed(p.blocks, addr, size, 0);
      if addr != 0 && k.Some? {
        var i := k.value;
        assert Real(p.blocks[i]) && InUse(p.blocks[i]);
        ReleaseRanges(p.blocks, p.lo, p.hi, i);
        var freed := p.blocks[i := p.blocks[i].(inUse := false)];
        PassKeepsUsed(freed, 0);
        SameViewSum(CoalesceFrom(freed, 0), freed);
        SameViewRanges(CoalesceFrom(freed, 0), freed);
        SameViewApart(freed, CoalesceFrom(freed, 0), p.lo, p.hi);
      } else {
        forall i | 0 <= i < |p.blocks| && InUse(p.blocks[i]) ensures (p.blocks[i].addr, p.blocks[i].size) != (addr, size) {
          assert Real(p.blocks[i]);
        }
      }
    }
  }

  lemma LeakIsSafe(p: Pool, size: nat, alignment: nat)
    requires Inv(p) && LeaksHole(p, size, alignment)
    ensures Safe(Alloc(p, size, alignment).pool) && Alloc(p, size, alignment).status == NoSpace
    ensures Alloc(p, size, alignment).pool.lo == p.lo && Alloc(p, size, alignment).pool.hi == p.hi
    ensures UsedRanges(Alloc(p, size, alignment).pool.blocks) == UsedRanges(p.blocks)
  {
    hide Tiles, NoAdjacentFree, UsedSum, FreeSum, AlignUp, NextFree;
    InvIsSafe(p);
    hide Inv;
    var k := NextFree(p.blocks, Needed(size), Alignment(alignment), 0).value;
    var b, at := p.blocks[k], AlignUp(p.blocks[k].addr, Alignment(alignment));
    assert Real(b);
    var hole := Block(b.addr, at - b.addr, false);
    FiledHoleIsSafe(p, hole);
    assert Alloc(p, size, alignment).pool == p.(blocks := p.blocks + [hole]);
  }

  /** A free block more in a table that is now full. */
  lemma FiledHoleIsSafe(p: Pool, hole: Block)
    requires Safe(p) && !hole.inUse && Real(hole) && |p.blocks| + 1 >= MAX_BLOCKS
    ensures Safe(p.(blocks := p.blocks + [hole])) && UsedRanges(p.blocks + [hole]) == UsedRanges(p.blocks)
  {
    hide Inv;
    var bs, cs := p.blocks, p.blocks + [hole];
    assert cs[..|cs| - 1] == bs && UsedSum(cs) == UsedSum(bs);
    hide UsedSum;
    forall i | 0 <= i < |bs| && InUse(bs[i]) ensures (bs[i].addr, bs[i].size) in UsedRanges(cs) {
      assert cs[i] == bs[i];
    }
  }

  /** Allocating is safe in any state, and what it grants is aligned, new and apart from the rest. */
  lemma AllocIsSafe(p: Pool, size: nat, alignment: nat)
    requires Safe(p)
    ensures var r := Alloc(p, size, alignment);
            && Safe(r.pool) && r.pool.lo == p.lo && r.pool.hi == p.hi
            && UsedRanges(r.pool.blocks) == (if r.status == Ok then UsedRanges(p.blocks) + {(r.addr, r.size)}
                                             else UsedRanges(p.blocks))
            && (r.status == Ok ==>
                  && (r.addr, r.size) !in UsedRanges(p.blocks) && (size <= TWO_64 - 16 ==> r.size >= size)
                  && r.addr % (if alignment > 16 then alignment else 16) == 0)
  {
    hide Tiles, NoAdjacentFree, UsedSum, FreeSum, AlignUp, NextFree, Carve, Needed;
    var r := Alloc(p, size, alignment);
    if Inv(p) && |p.blocks| < MAX_BLOCKS && size > 0 {
      if LeaksHole(p, size, alignment) {
        LeakIsSafe(p, size, alignment);
      } else {
        AllocKeepsInvIff(p, size, alignment);
        InvIsSafe(r.pool);
        NoLeakNoChange(p, size, alignment);
        if r.status == Ok { AllocTakesRegion(p, size, alignment); }
      }
    }
  }

  lemma NoLeakNoChange(p: Pool, size: nat, alignment: nat)
    requires Inv(p) && !LeaksHole(p, size, alignment)
    ensures Alloc(p, size, alignment).status != Ok ==> Alloc(p, size, alignment).pool == p
  {
    hide Tiles, NoAdjacentFree, UsedSum, FreeSum, AlignUp;
  }

  // ---------- Runs ----------

  /** A granted allocation, and the size and alignment that were asked for. */
  datatype Grant = Grant(addr: nat, size: nat, asked: nat, align: nat)

  /** The grants that the caller holds, from the results of the calls alone. */
  function Held(p: Pool, ops: seq<Op>): set<Grant> {
    if ops == [] then {}
    else
      var before, last := ops[..|ops| - 1], ops[|ops| - 1];
      var q := Run(p, before);
      match last
      case AllocOp(size, alignment) =>
        var r := Alloc(q, size, alignment);
        if r.status == Ok then Held(p, before) + {Grant(r.addr, r.size, size, alignment)} else Held(p, before)
      case FreeOp(addr, size) =>
        if Free(q, addr, size).status == Ok then Without(Held(p, before), addr, size) else Held(p, before)
  }

  function Without(gs: set<Grant>, addr: nat, size: nat): set<Grant> {
    set g | g in gs && !(g.addr == addr && g.size == size)
  }

  function Ranges(gs: set<Grant>): set<(nat, nat)> { set g | g in gs :: (g.addr, g.size) }

  /** The bytes of a set of ranges. */
  ghost function Bytes(rs: set<(nat, nat)>): nat {
    if rs == {} then 0
    else
      var r :| r in rs;
      r.1 + Bytes(rs - {r})
  }

  lemma {:induction false} BytesWithout(rs: set<(nat, nat)>, x: (nat, nat))
    requires x in rs
    ensures Bytes(rs) == x.1 + Bytes(rs - {x})
  {
    var r :| r in rs && Bytes(rs) == r.1 + Bytes(rs - {r});
    if r != x {
      BytesWithout(rs - {r}, x);
      BytesWithout(rs - {x}, r);
      assert rs - {r} - {x} == rs - {x} - {r};
    }
  }

  /** The blocks in use add up to the bytes of their ranges. */
  lemma {:induction false} UsedBytes(bs: seq<Block>, lo: nat, hi: nat)
    requires UsedApart(bs, lo, hi)
    ensures UsedSum(bs) == Bytes(UsedRanges(bs))
  {
    if bs == [] {
      assert UsedRanges(bs) == {};
    } else {
      var init, last := bs[..|bs| - 1], bs[|bs| - 1];
      forall i | 0 <= i < |init| ensures init[i] == bs[i] { }
      UsedBytes(init, lo, hi);
      RangesOfLast(bs, lo, hi);
      if InUse(last) { BytesWithout(UsedRanges(bs), (last.addr, last.size)); }
    }
  }

  lemma RangesOfLast(bs: seq<Block>, lo: nat, hi: nat)
    requires bs != [] && UsedApart(bs, lo, hi)
    ensures var init, last := bs[..|bs| - 1], bs[|bs| - 1];
            if InUse(last) then (last.addr, last.size) in UsedRanges(bs)
                                && UsedRanges(bs) - {(last.addr, last.size)} == UsedRanges(init)
            else UsedRanges(bs) == UsedRanges(init)
  {
    var init, last := bs[..|bs| - 1], bs[|bs| - 1];
    forall i | 0 <= i < |init| && InUse(init[i])
      ensures (init[i].addr, init[i].size) in UsedRanges(bs)
      ensures InUse(last) ==> (init[i].addr, init[i].size) != (last.addr, last.size)
    {
      assert bs[i] == init[i];
      assert InUse(last) ==> Apart(bs[i], last);
    }
    forall i | 0 <= i < |bs| - 1 && InUse(bs[i]) ensures (bs[i].addr, bs[i].size) in UsedRanges(init) {
      assert init[i] == bs[i];
    }
  }

  /** A grant as it was asked for: large enough, unless rounding up wrapped, and aligned, at least to 16. */
  predicate AsAsked(g: Grant) {
    (g.asked <= TWO_64 - 16 ==> g.size >= g.asked) && g.addr % (if g.align > 16 then g.align else 16) == 0
  }

  /** And inside the pool. */
  predicate Placed(g: Grant, lo: nat, hi: nat) {
    g.size > 0 && lo <= g.addr && g.addr + g.size <= hi && AsAsked(g)
  }

  predicate Clear(g: Grant, h: Grant) { g.addr + g.size <= h.addr || h.addr + h.size <= g.addr }

  /** Held allocations do not overlap, lie in the pool, and are as asked. */
  ghost predicate WellHeld(gs: set<Grant>, lo: nat, hi: nat) {
    && (forall g :: g in gs ==> Placed(g, lo, hi))
    && (forall g, h :: g in gs && h in gs && g != h ==> Clear(g, h))
  }

  /** No range is granted twice. */
  ghost predicate OneEach(gs: set<Grant>) {
    forall g, h :: g in gs && h in gs && g.addr == h.addr && g.size == h.size ==> g == h
  }

  lemma {:induction false} RunIsSafe(lo: nat, size: nat, ops: seq<Op>)
    requires 0 < lo && 0 < size && lo + size <= ADDR_LIMIT
    ensures var q := Run(Create(lo, size), ops);
            && Safe(q) && q.lo == lo && q.hi == lo + size
            && UsedRanges(q.blocks) == Ranges(Held(Create(lo, size), ops))
    ensures OneEach(Held(Create(lo, size), ops))
    ensures forall g :: g in Held(Create(lo, size), ops) ==> AsAsked(g)
  {
    hide Safe, Alloc, Free;
    var p := Create(lo, size);
    if ops == [] {
      CreateEstablishesInv(lo, size);
      InvIsSafe(p);
      assert UsedRanges(p.blocks) == {} == Ranges({});
    } else {
      var before, last := ops[..|ops| - 1], ops[|ops| - 1];
      RunIsSafe(lo, size, before);
      var q := Run(p, before);
      match last
      case AllocOp(n, alignment) =>
        AllocIsSafe(q, n, alignment);
        var r := Alloc(q, n, alignment);
        RangesAdd(Held(p, before), Grant(r.addr, r.size, n, alignment));
      case FreeOp(addr, n) =>
        FreeIsSafe(q, addr, n);
        RangesWithout(Held(p, before), addr, n);
    }
  }

  lemma RangesAdd(gs: set<Grant>, g: Grant)
    ensures Ranges(gs + {g}) == Ranges(gs) + {(g.addr, g.size)}
    ensures (g.addr, g.size) !in Ranges(gs) ==> forall h :: h in gs ==> !(h.addr == g.addr && h.size == g.size)
  {
    forall h | h in gs ensures (h.addr, h.size) in Ranges(gs) { }
  }

  lemma RangesWithout(gs: set<Grant>, addr: nat, size: nat)
    ensures Ranges(Without(gs, addr, size)) == Ranges(gs) - {(addr, size)}
  {
    forall r | r in Ranges(gs) && r != (addr, size) ensures r in Ranges(Without(gs, addr, size)) {
      var g :| g in gs && r == (g.addr, g.size);
      assert g in Without(gs, addr, size);
    }
  }

  /**
    Over every run of calls whatever, leaking ones included: the allocations that the caller
    holds are inside the pool, as large and aligned as asked and pairwise disjoint, and `used` is
    their sum.
   */
  lemma EveryRunIsSafe(lo: nat, size: nat, ops: seq<Op>)
    requires 0 < lo && 0 < size && lo + size <= ADDR_LIMIT
    ensures var p := Create(lo, size);
            && WellHeld(Held(p, ops), lo, lo + size)
            && Run(p, ops).used == Bytes(Ranges(Held(p, ops))) <= size
  {
    var p := Create(lo, size);
    hide Run, Held, Inv, UsedSum, AllReal;
    RunIsSafe(lo, size, ops);
    var q, gs := Run(p, ops), Held(p, ops);
    UsedBytes(q.blocks, lo, lo + size);
    forall g | g in gs ensures (g.addr, g.size) in UsedRanges(q.blocks) { assert (g.addr, g.size) in Ranges(gs); }
    forall g | g in gs ensures Placed(g, lo, lo + size) {
      var i := SlotOf(q.blocks, g.addr, g.size);
    }
    forall g, h | g in gs && h in gs && g != h ensures Clear(g, h) {
      var i, j := SlotOf(q.blocks, g.addr, g.size), SlotOf(q.blocks, h.addr, h.size);
      assert i != j;
      assert Apart(q.blocks[i], q.blocks[j]);
    }
  }

  ghost function SlotOf(bs: seq<Block>, addr: nat, size: nat): (i: nat)
    requires (addr, size) in UsedRanges(bs)
    ensures i < |bs| && bs[i] == Block(addr, size, true) && size > 0
  {
    var i: nat :| i < |bs| && bs[i].inUse && bs[i].size > 0 && (bs[i].addr, bs[i].size) == (addr, size);
    i
  }
}
