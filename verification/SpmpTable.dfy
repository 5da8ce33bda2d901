/** The allocator in place: a fixed table of slots, a slot count and a `used` counter. */
module SpmpTable {
  import opened Bits
  import opened Spmp
  import opened SpmpProofs

  /** The largest free block, or 0 when nothing is free. */
  function LargestFree(bs: seq<Block>): (m: nat)
    ensures forall i :: 0 <= i < |bs| && !bs[i].inUse ==> bs[i].size <= m
    ensures m > 0 ==> exists i :: 0 <= i < |bs| && !bs[i].inUse && bs[i].size == m
  {
    if bs == [] then 0
    else
      var before, b := LargestFree(bs[..|bs| - 1]), bs[|bs| - 1];
      assert forall i :: 0 <= i < |bs| - 1 ==> bs[..|bs| - 1][i] == bs[i];
      if !b.inUse && b.size > before then b.size else before
  }

  function Fragmentation(free: nat, largest: nat): nat {
    if free == 0 then 0 else (100 * ((free - largest) % TWO_64)) % TWO_64 / free % 0x1_0000_0000
  }

  lemma {:induction false} LargestBelowSum(bs: seq<Block>)
    ensures LargestFree(bs) <= FreeSum(bs)
  {
    if bs != [] {
      LargestBelowSum(bs[..|bs| - 1]);
    }
  }

  lemma {:induction false} SumAboveTwo(bs: seq<Block>, i: nat, j: nat)
    requires i < j < |bs| && !bs[i].inUse && !bs[j].inUse
    ensures FreeSum(bs) >= bs[i].size + bs[j].size
  {
    if j == |bs| - 1 {
      var before := bs[..|bs| - 1];
      assert before[i] == bs[i];
      LargestBelowSum(before);
    } else {
      assert bs[..|bs| - 1][i] == bs[i] && bs[..|bs| - 1][j] == bs[j];
      SumAboveTwo(bs[..|bs| - 1], i, j);
    }
  }

  /**
    The fragmentation figure of a pool: below 100, and 0 when the free space is one range. The
    condition, that the product stays in 64 bits, is met by every pool below 2^57 bytes.
   */
  lemma FragmentationMeaning(p: Pool)
    requires Inv(p) && 100 * (FreeSum(p.blocks) - LargestFree(p.blocks)) < TWO_64
    ensures var f := Fragmentation(FreeSum(p.blocks), LargestFree(p.blocks));
            && f < 100
            && f * FreeSum(p.blocks) <= 100 * (FreeSum(p.blocks) - LargestFree(p.blocks))
            && (LargestFree(p.blocks) == FreeSum(p.blocks) ==> f == 0)
  {
    hide Tiles, NoAdjacentFree, Fragmentation;
    LargestBelowSum(p.blocks);
    if LargestFree(p.blocks) == 0 { AllFreeEmpty(p.blocks); }
    FragmentationBounds(FreeSum(p.blocks), LargestFree(p.blocks));
  }

  lemma FragmentationBounds(free: nat, largest: nat)
    requires largest <= free < TWO_64 && (free > 0 ==> largest > 0) && 100 * (free - largest) < TWO_64
    ensures Fragmentation(free, largest) < 100
    ensures Fragmentation(free, largest) * free <= 100 * (free - largest)
    ensures largest == free ==> Fragmentation(free, largest) == 0
  {
    if free > 0 {
      FragmentationExactIff(free, largest);
      var x := 100 * (free - largest);
      DivBounds(x, free);
      DivBelow(x, free, 100);
    }
  }

  /** The figure is the true percentage, rounded down, exactly when the product does not wrap. */
  lemma FragmentationExactIff(free: nat, largest: nat)
    requires 0 < largest <= free < TWO_64
    ensures Fragmentation(free, largest) == 100 * (free - largest) / free <==> 100 * (free - largest) < TWO_64
  {
    var x := 100 * (free - largest);
    var y := x % TWO_64;
    ModSmall(free - largest, TWO_64);
    DivBelow(x, free, 100);
    DivBelow(y, free, 100 + TWO_64);
    DivBounds(y, free);
    if x < TWO_64 {
      ModSmall(x, TWO_64);
      ModSmall(x / free, 0x1_0000_0000);
    } else {
      assert y + TWO_64 <= x;
      DivStep(y, x, free);
      ModSmall(y / free, 0x1_0000_0000);
    }
  }

  /** Adding at least the divisor raises the quotient. */
  lemma DivStep(y: nat, x: nat, d: nat)
    requires d > 0 && y + d <= x
    ensures 0 <= y / d < x / d
  {
    var k := y / d;
    assert k * d + d <= x;
    assert (k + 1) * d <= x;
    DivAtLeast(x, d, k + 1);
  }

  lemma DivAtLeast(x: nat, d: nat, k: nat)
    requires d > 0 && k * d <= x
    ensures x / d >= k
  {
    assert x < (x / d + 1) * d;
    assert k <= x / d by {
      if k > x / d { MulOrder(d, x / d + 1, k); }
    }
  }

  lemma ModSmall(a: nat, m: nat)
    requires a < m
    ensures a % m == a
  {
  }

  lemma {:induction false} AllFreeEmpty(bs: seq<Block>)
    requires LargestFree(bs) == 0
    ensures FreeSum(bs) == 0
  {
    if bs != [] {
      assert bs[|bs| - 1].inUse || bs[|bs| - 1].size == 0;
      assert LargestFree(bs[..|bs| - 1]) == 0;
      AllFreeEmpty(bs[..|bs| - 1]);
    }
  }

  lemma DivBounds(x: nat, d: nat)
    requires d > 0
    ensures x / d * d <= x
  {
  }

  lemma DivBelow(x: nat, d: nat, k: nat)
    requires d > 0 && x < k * d
    ensures x / d < k
  {
    DivBounds(x, d);
    MulOrder(d, x / d, k);
  }

  class SlotTable {
    const lo: nat
    const hi: nat
    var blocks: array<Block>
    var numBlocks: nat
    var used: nat

    ghost predicate Valid()
      reads this
    {
      blocks.Length == MAX_BLOCKS && numBlocks <= MAX_BLOCKS
    }

    ghost function View(): Pool
      requires Valid()
      reads this, blocks
    {
      Pool(lo, hi, blocks[..numBlocks], used)
    }

    constructor (lo: nat, size: nat)
      ensures Valid() && fresh(blocks)
      ensures View() == Create(lo, size)
    {
      this.lo, this.hi := lo, lo + size;
      blocks := new Block[MAX_BLOCKS](_ => Block(0, 0, false));
      numBlocks, used := 1, 0;
      new;
      blocks[0] := Block(lo, size, false);
    }

    /** First fit; `found` is false when no slot fits. */
    method BlockNextFree(needed: nat, alignment: nat) returns (found: bool, k: nat, at: nat)
      requires Valid()
      ensures found <==> NextFree(View().blocks, needed, Alignment(alignment), 0).Some?
      ensures found ==> k < numBlocks && NextFree(View().blocks, needed, Alignment(alignment), 0) == Some(k)
                        && at == AlignUp(View().blocks[k].addr, Alignment(alignment))
    {
      ghost var bs := blocks[..numBlocks];
      var align := if alignment > BLOCK_ALIGN then alignment else BLOCK_ALIGN;
      k, at := 0, 0;
      while k < numBlocks
        invariant k <= numBlocks
        invariant NextFree(bs, needed, align, 0) == NextFree(bs, needed, align, k)
      {
        var b := blocks[k];
        assert b == bs[k];
        if !b.inUse {
          at := b.addr;
          var rem := at % align;
          if rem != 0 {
            at := at + (align - rem);
          }
          if at <= b.End() && b.End() - at >= needed {
            return true, k, at;
          }
        }
        k := k + 1;
      }
      found := false;
    }

    method AppendSlot(b: Block)
      requires Valid() && numBlocks < MAX_BLOCKS
      modifies this`numBlocks, blocks
      ensures Valid() && blocks[..numBlocks] == old(blocks[..numBlocks]) + [b]
    {
      blocks[numBlocks] := b;
      numBlocks := numBlocks + 1;
    }

    method AllocBlock(size: nat, alignment: nat) returns (status: Status, addr: nat, granted: nat)
      requires Valid()
      modifies this, blocks
      ensures Valid() && blocks == old(blocks)
      ensures AllocResult(View(), status, addr, granted) == Alloc(old(View()), size, alignment)
    {
      hide AlignUp, Needed;
      addr, granted := 0, 0;
      if size == 0 {
        return Invalid, 0, 0;
      }
      var needed := Needed(size);
      if numBlocks >= MAX_BLOCKS {
        return NoSpace, 0, 0;
      }
      var found, k, at := BlockNextFree(needed, alignment);
      if !found {
        return NoMemory, 0, 0;
      }
      AlignUpIsLeast(blocks[k].addr, Alignment(alignment));
      assert Fits(blocks[..numBlocks][k], needed, Alignment(alignment));
      var carved := CarveSlot(k, at, needed);
      if !carved {
        return NoSpace, 0, 0;
      }
      used := (used + needed) % TWO_64;
      return Ok, at, needed;
    }

    /** File the two holes in fresh slots, then shrink slot k; stops short when no slot is left for the second hole. */
    method CarveSlot(k: nat, at: nat, needed: nat) returns (carved: bool)
      requires Valid() && k < numBlocks < MAX_BLOCKS
      requires blocks[k].addr <= at && at + needed <= blocks[k].End()
      modifies this`numBlocks, blocks
      ensures Valid()
      ensures var bs, b := old(blocks[..numBlocks]), old(blocks[k]);
              var lead := bs + LeadingHole(b, at);
              && (carved <==> !(TrailingHole(b, at + needed) != [] && |lead| >= MAX_BLOCKS))
              && blocks[..numBlocks] == if carved then Carve(bs, k, at, needed) else lead
    {
      var b := blocks[k];
      if at > b.addr {
        AppendSlot(Block(b.addr, at - b.addr, false));
      }
      assert blocks[..numBlocks] == old(blocks[..numBlocks]) + LeadingHole(b, at);
      if b.End() > at + needed {
        if numBlocks >= MAX_BLOCKS {
          return false;
        }
        AppendSlot(Block(at + needed, b.End() - (at + needed), false));
      }
      assert blocks[..numBlocks] == old(blocks[..numBlocks]) + LeadingHole(b, at) + TrailingHole(b, at + needed);
      blocks[k] := Block(at, needed, true);
      return true;
    }

    method Coalesce()
      requires Valid()
      modifies blocks
      ensures Valid() && View() == old(View()).(blocks := CoalesceFrom(old(View()).blocks, 0))
    {
      ghost var all := CoalesceFrom(blocks[..numBlocks], 0);
      for i := 0 to numBlocks
        invariant CoalesceFrom(blocks[..numBlocks], i) == all
      {
        if !blocks[i].inUse {
          CoalesceSlot(i);
        }
      }
    }

    /** The inner loop of the pass: slot i against every other slot. */
    method CoalesceSlot(i: nat)
      requires Valid() && i < numBlocks
      modifies blocks
      ensures Valid() && blocks[..numBlocks] == CoalesceRow(old(blocks[..numBlocks]), i, 0)
    {
      ghost var row := CoalesceRow(blocks[..numBlocks], i, 0);
      for j := 0 to numBlocks
        invariant CoalesceRow(blocks[..numBlocks], i, j) == row
      {
        MergePair(i, j);
      }
    }

    method MergePair(i: nat, j: nat)
      requires Valid() && i < numBlocks && j < numBlocks
      modifies blocks
      ensures Valid() && blocks[..numBlocks] == MergeAt(old(blocks[..numBlocks]), i, j)
    {
      if j != i && !blocks[j].inUse {
        var a, bb := blocks[i], blocks[j];
        if a.End() == bb.addr {
          blocks[i] := a.(size := a.size + bb.size);
          blocks[j] := TOMBSTONE;
        } else if bb.End() == a.addr {
          blocks[j] := bb.(size := bb.size + a.size);
          blocks[i] := TOMBSTONE;
        }
      }
    }

    method FreeBlock(addr: nat, size: nat) returns (status: Status)
      requires Valid()
      modifies this, blocks
      ensures Valid() && blocks == old(blocks)
      ensures FreeResult(View(), status) == Free(old(View()), addr, size)
    {
      if addr == 0 {
        return Invalid;
      }
      ghost var bs := blocks[..numBlocks];
      for i := 0 to numBlocks
        invariant blocks[..numBlocks] == bs && used == old(used)
        invariant FindUsed(bs, addr, size, 0) == FindUsed(bs, addr, size, i)
      {
        var b := blocks[i];
        assert b == bs[i];
        if b.inUse && b.addr == addr && b.size == size {
          blocks[i] := b.(inUse := false);
          used := (used - b.size) % TWO_64;
          assert blocks[..numBlocks] == bs[i := b.(inUse := false)];
          Coalesce();
          return Ok;
        }
      }
      return NoEntry;
    }

    /** Usage figures; on a pool between calls, what is neither used nor free does not exist. */
    method QueryStats() returns (usedBytes: nat, total: nat, fragPct: nat)
      requires Valid() && lo <= hi
      ensures usedBytes == View().used && total == hi - lo
      ensures fragPct == Fragmentation(FreeSum(View().blocks), LargestFree(View().blocks))
      ensures Inv(View()) ==> usedBytes == UsedSum(View().blocks) && usedBytes + FreeSum(View().blocks) == total
    {
      usedBytes, total := used, hi - lo;
      ghost var bs := blocks[..numBlocks];
      var freeTotal, largest := 0, 0;
      for i := 0 to numBlocks
        invariant freeTotal == FreeSum(bs[..i]) && largest == LargestFree(bs[..i])
      {
        assert bs[..i + 1][..i] == bs[..i] && bs[..i + 1][i] == blocks[i];
        if !blocks[i].inUse {
          freeTotal := freeTotal + blocks[i].size;
          if blocks[i].size > largest {
            largest := blocks[i].size;
          }
        }
      }
      assert bs[..numBlocks] == bs;
      if freeTotal == 0 {
        fragPct := 0;
      } else {
        fragPct := (100 * ((freeTotal - largest) % TWO_64)) % TWO_64 / freeTotal % 0x1_0000_0000;
      }
    }
  }
}
