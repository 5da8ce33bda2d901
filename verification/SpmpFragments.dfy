/** The fragmentation figure on a large pool: a reachable state in which its product wraps. */
module SpmpFragments {
  import opened Bits
  import opened Spmp
  import opened SpmpRuns
  import opened SpmpTable

  const LO := 0x1_0000_0000
  const HALF := 0x800_0000_0000_0000

  /** On a pool of 2^60 bytes: allocate half of it, then 64 bytes, and free the half. */
  const SPLIT := [AllocOp(HALF, 16), AllocOp(64, 16), FreeOp(LO, HALF)]

  const LOWER := Block(LO, HALF, false)
  const MIDDLE := Block(LO + HALF, 64, true)
  const UPPER := Block(LO + HALF + 64, HALF - 64, false)

  lemma HalfAllocated()
    ensures Alloc(Create(LO, 2 * HALF), HALF, 16).pool
            == Pool(LO, LO + 2 * HALF, [Block(LO, HALF, true), Block(LO + HALF, HALF, false)], HALF)
  {
    var p := Create(LO, 2 * HALF);
    assert NextFree(p.blocks, HALF, 16, 0) == Some(0);
  }

  lemma ThenSixtyFour(p: Pool)
    requires p == Pool(LO, LO + 2 * HALF, [Block(LO, HALF, true), Block(LO + HALF, HALF, false)], HALF)
    ensures Alloc(p, 64, 16).pool == Pool(LO, LO + 2 * HALF, [Block(LO, HALF, true), MIDDLE, UPPER], HALF + 64)
  {
    var bs := p.blocks;
    assert !Fits(bs[0], 64, 16) && Fits(bs[1], 64, 16);
    assert NextFree(bs, 64, 16, 0) == NextFree(bs, 64, 16, 1) == Some(1);
  }

  lemma NothingMerges(bs: seq<Block>)
    requires bs == [LOWER, MIDDLE, UPPER]
    ensures CoalesceFrom(bs, 0) == bs
  {
    assert CoalesceRow(bs, 0, 3) == CoalesceRow(bs, 0, 2) == CoalesceRow(bs, 0, 1) == CoalesceRow(bs, 0, 0) == bs;
    assert CoalesceRow(bs, 2, 3) == CoalesceRow(bs, 2, 2) == CoalesceRow(bs, 2, 1) == CoalesceRow(bs, 2, 0) == bs;
    assert CoalesceFrom(bs, 3) == CoalesceFrom(bs, 2) == CoalesceFrom(bs, 1) == bs;
  }

  lemma ThenHalfFreed(p: Pool)
    requires p == Pool(LO, LO + 2 * HALF, [Block(LO, HALF, true), MIDDLE, UPPER], HALF + 64)
    ensures Free(p, LO, HALF).pool == Pool(LO, LO + 2 * HALF, [LOWER, MIDDLE, UPPER], 64)
  {
    hide CoalesceFrom;
    var bs := p.blocks;
    assert FindUsed(bs, LO, HALF, 0) == Some(0);
    assert bs[0 := LOWER] == [LOWER, MIDDLE, UPPER];
    NothingMerges(bs[0 := LOWER]);
  }

  lemma SplitState()
    ensures Run(Create(LO, 2 * HALF), SPLIT).blocks == [LOWER, MIDDLE, UPPER]
  {
    hide Alloc, Free, Create;
    HalfAllocated();
    var p := Create(LO, 2 * HALF);
    assert SPLIT[..2][..1] == SPLIT[..1] && SPLIT[..1][..0] == [];
    assert Run(p, SPLIT[..1]) == Alloc(p, HALF, 16).pool;
    assert Run(p, SPLIT[..2]) == Alloc(Run(p, SPLIT[..1]), 64, 16).pool;
    ThenSixtyFour(Run(p, SPLIT[..1]));
    ThenHalfFreed(Run(p, SPLIT[..2]));
  }

  lemma SplitFigures(bs: seq<Block>)
    requires bs == [LOWER, MIDDLE, UPPER]
    ensures FreeSum(bs) == 2 * HALF - 64 && LargestFree(bs) == HALF
  {
    assert bs[..2] == [LOWER, MIDDLE] && bs[..2][..1] == [LOWER] && [LOWER][..0] == [];
    assert FreeSum([LOWER]) == LargestFree([LOWER]) == HALF;
    assert FreeSum(bs[..2]) == LargestFree(bs[..2]) == HALF;
  }

  /** These three calls leave 49 percent of the free bytes outside the largest block; 1 percent is reported. */
  lemma FigureMisses()
    ensures var bs := Run(Create(LO, 2 * HALF), SPLIT).blocks;
            && Fragmentation(FreeSum(bs), LargestFree(bs)) == 1
            && 100 * (FreeSum(bs) - LargestFree(bs)) / FreeSum(bs) == 49
  {
    hide Run;
    SplitState();
    SplitFigures(Run(Create(LO, 2 * HALF), SPLIT).blocks);
  }
}
