/**
  The failing case of allocation is reachable: a caller that holds one block and keeps
  allocating and freeing another uses up one slot a cycle, until a request that needs a
  hole on both sides finds one slot.
 */
module SpmpLeak {
  import opened Bits
  import opened Spmp
  import opened SpmpRuns

  const LO := 0x1_0000_0000
  const POOL_SIZE := 0x10_0000

  function Tombs(n: nat): seq<Block> { seq(n, _ => TOMBSTONE) }

  /** One live block of 64 bytes, the rest free, and n dead slots. */
  function Worn(n: nat): Pool {
    Pool(LO, LO + POOL_SIZE, [Block(LO, 64, true), Block(LO + 64, POOL_SIZE - 64, false)] + Tombs(n), 64)
  }

  const CYCLE := [AllocOp(64, 16), FreeOp(LO + 64, 64)]

  function Wear(n: nat): seq<Op> {
    if n == 0 then [AllocOp(64, 16)] else Wear(n - 1) + CYCLE
  }

  lemma {:induction false} RowSkips(bs: seq<Block>, i: nat, j: nat, k: nat)
    requires i < |bs| && j <= k <= |bs|
    requires forall s :: j <= s < k ==> s == i || bs[s].inUse
    ensures CoalesceRow(bs, i, j) == CoalesceRow(bs, i, k)
    decreases k - j
  {
    if j < k { RowSkips(bs, i, j + 1, k); }
  }

  lemma {:induction false} PassSkips(bs: seq<Block>, i: nat)
    requires i <= |bs|
    requires forall s :: i <= s < |bs| ==> bs[s].inUse
    ensures CoalesceFrom(bs, i) == bs
    decreases |bs| - i
  {
    if i < |bs| { PassSkips(bs, i + 1); }
  }

  lemma WornAlloc(n: nat)
    requires n + 2 < MAX_BLOCKS
    ensures var r := Alloc(Worn(n), 64, 16);
            && r.status == Ok && r.pool.used == 128
            && r.pool.blocks == [Block(LO, 64, true), Block(LO + 64, 64, true)] + Tombs(n)
                                + [Block(LO + 128, POOL_SIZE - 128, false)]
  {
    var bs := Worn(n).blocks;
    assert !Fits(bs[0], 64, 16) && Fits(bs[1], 64, 16);
    assert NextFree(bs, 64, 16, 0) == NextFree(bs, 64, 16, 1) == Some(1);
  }

  lemma WornFree(n: nat)
    requires n + 2 < MAX_BLOCKS
    ensures Free(Alloc(Worn(n), 64, 16).pool, LO + 64, 64).pool == Worn(n + 1)
  {
    WornAlloc(n);
    var p := Alloc(Worn(n), 64, 16).pool;
    var bs, last := p.blocks, n + 2;
    assert bs[0] == Block(LO, 64, true) && bs[1] == Block(LO + 64, 64, true);
    assert FindUsed(bs, LO + 64, 64, 0) == FindUsed(bs, LO + 64, 64, 1) == Some(1);
    var freed := bs[1 := Block(LO + 64, 64, false)];
    RowSkips(freed, 1, 0, last);
    var merged := MergeAt(freed, 1, last);
    assert merged == Worn(n + 1).blocks;
    assert CoalesceRow(freed, 1, last) == CoalesceRow(merged, 1, last + 1) == merged;
    PassSkips(merged, 2);
    assert CoalesceFrom(freed, 0) == CoalesceFrom(freed, 1) == CoalesceFrom(merged, 2);
  }

  lemma WornHasRoom(n: nat)
    requires n + 3 < MAX_BLOCKS
    ensures !LeaksHole(Worn(n), 64, 16)
  {
  }

  lemma {:induction false} WearReaches(n: nat)
    requires n + 2 < MAX_BLOCKS
    ensures Run(Create(LO, POOL_SIZE), Wear(n)) == Worn(n)
    ensures NoLeak(Create(LO, POOL_SIZE), Wear(n))
  {
    hide Alloc, Free, Worn, LeaksHole, Create, Run, NoLeak;
    if n == 0 {
      FirstAlloc();
    } else {
      WearReaches(n - 1);
      WornFree(n - 1);
      WornHasRoom(n - 1);
      RunCycle(Create(LO, POOL_SIZE), Wear(n - 1));
    }
  }

  lemma FirstAlloc()
    ensures Run(Create(LO, POOL_SIZE), Wear(0)) == Worn(0)
    ensures NoLeak(Create(LO, POOL_SIZE), Wear(0))
  {
    var p := Create(LO, POOL_SIZE);
    assert Wear(0)[..0] == [];
    assert NextFree(p.blocks, 64, 16, 0) == Some(0);
    assert Run(p, []) == p && NoLeak(p, []);
    assert Worn(0).blocks == [Block(LO, 64, true), Block(LO + 64, POOL_SIZE - 64, false)];
  }

  lemma RunCycle(p: Pool, ops: seq<Op>)
    ensures Run(p, ops + CYCLE) == Free(Alloc(Run(p, ops), 64, 16).pool, LO + 64, 64).pool
    ensures NoLeak(p, ops + CYCLE) <==> NoLeak(p, ops) && !LeaksHole(Run(p, ops), 64, 16)
  {
    hide Alloc, Free, LeaksHole;
    var mid := ops + [AllocOp(64, 16)];
    assert (ops + CYCLE)[..|ops| + 1] == mid && mid[..|ops|] == ops;
    assert Run(p, mid) == Alloc(Run(p, ops), 64, 16).pool;
  }

  /**
    From a fresh 1 MiB pool, 1019 calls that all succeed lead to a state in which the next
    allocation is refused and leaves the pool with overlapping blocks.
   */
  lemma LeakIsReachable()
    ensures var p, ops := Create(LO, POOL_SIZE), Wear(MAX_BLOCKS - 3);
            && NoLeak(p, ops) && Inv(Run(p, ops))
            && LeaksHole(Run(p, ops), 64, 4096)
            && Alloc(Run(p, ops), 64, 4096).status == NoSpace
            && !Inv(Alloc(Run(p, ops), 64, 4096).pool)
  {
    hide Inv, Alloc, LeaksHole, Wear, Run, NoLeak, Worn, Create;
    WearReaches(MAX_BLOCKS - 3);
    RunKeepsInv(LO, POOL_SIZE, Wear(MAX_BLOCKS - 3));
    WornLeaks(MAX_BLOCKS - 3);
    LeakBreaksInv(Worn(MAX_BLOCKS - 3), 64, 4096);
  }

  lemma WornLeaks(n: nat)
    requires n == MAX_BLOCKS - 3
    ensures LeaksHole(Worn(n), 64, 4096)
  {
    var bs := Worn(n).blocks;
    assert !Fits(bs[0], 64, 4096) && Fits(bs[1], 64, 4096);
    assert NextFree(bs, 64, 4096, 0) == NextFree(bs, 64, 4096, 1) == Some(1);
  }
}
