/** What the allocator promises: every proof is about the functions of `Spmp`. */
module SpmpProofs {
  import opened Bits
  import opened Spmp

  // ---------- Rounding ----------

  /** Rounding up gives the least multiple of the alignment that is not below the address. */
  lemma AlignUpIsLeast(addr: nat, align: nat)
    requires align > 0
    ensures addr <= AlignUp(addr, align) < addr + align
    ensures AlignUp(addr, align) % align == 0
    ensures forall y :: addr <= y && y % align == 0 ==> AlignUp(addr, align) <= y
  {
    var up := AlignUp(addr, align);
    if addr % align != 0 {
      assert up == align * (addr / align + 1);
      MultipleMod(addr / align + 1, align);
    }
    forall y | addr <= y && y % align == 0 ensures up <= y {
      if y < up {
        assert align * (y / align) == y;
        assert align * (up / align) == up;
        MultipleGap(y / align, up / align, align);
      }
    }
  }

  lemma MulOrder(a: nat, x: int, y: int)
    requires a > 0
    ensures a * x < a * y <==> x < y
  {
    if x < y {
      MulAtLeast(a, y - x);
      MulDistributes(a, y, x);
    } else if y < x {
      MulAtLeast(a, x - y);
      MulDistributes(a, x, y);
    }
  }

  lemma MulAtLeast(a: nat, d: int)
    requires d >= 1
    ensures a * d >= a
  {
  }

  lemma MulDistributes(a: int, x: int, y: int)
    ensures a * (x - y) == a * x - a * y
  {
  }

  lemma MultipleMod(q: int, a: nat)
    requires a > 0
    ensures (a * q) % a == 0
  {
    var d := (a * q) / a;
    assert a * d <= a * q < a * (d + 1);
    MulOrder(a, q, d + 1);
    MulOrder(a, q, d);
  }

  lemma MultipleGap(q: int, r: int, a: nat)
    requires a > 0 && a * q < a * r
    ensures a * q + a <= a * r
  {
    MulOrder(a, q, r);
    MulOrder(a, r, q + 1);
    MulDistributes(a, q + 1, 1);
  }

  /** The size handed out covers the request exactly when `size + 15` does not wrap in `size_t`. */
  lemma NeededCoversRequest(size: nat)
    requires 0 < size < TWO_64
    ensures Needed(size) >= size <==> size <= TWO_64 - 16
    ensures Needed(size) == if size <= 64 || size > TWO_64 - 16 then 64 else (size + 15) / 16 * 16
  {
  }

  /** Where it does, it is the least multiple of 16 from 64 on that covers the request. */
  lemma NeededIsLeast(size: nat, y: nat)
    requires 0 < size <= TWO_64 - 16
    ensures Needed(size) % 16 == 0 && 64 <= Needed(size) < TWO_64
    ensures y % 16 == 0 && y >= 64 && y >= size ==> Needed(size) <= y
  {
  }

  /** The alignment in force is the one asked for, but at least 16. */
  lemma AlignmentIs(alignment: nat)
    ensures Alignment(alignment) == if alignment > 16 then alignment else 16
  {
  }

  /** The largest request wraps to the smallest block. */
  lemma LargestRequestGetsSmallestBlock()
    ensures Needed(TWO_64 - 1) == 64
  {
  }

  // ---------- Free runs ----------

  lemma NextBlockTouches(bs: seq<Block>, lo: nat, hi: nat, k: nat, j: nat)
    requires Disjoint(bs, lo, hi)
    requires k < |bs| && j < |bs| && !bs[k].inUse && !bs[j].inUse && bs[j].Contains(bs[k].End())
    ensures Touch(bs[k], bs[j])
  {
    assert j != k ==> Apart(bs[k], bs[j]);
  }

  /** No address is in two slots. */
  lemma SameSlot(bs: seq<Block>, lo: nat, hi: nat, i: nat, j: nat, x: int)
    requires Disjoint(bs, lo, hi)
    requires i < |bs| && j < |bs| && bs[i].Contains(x) && bs[j].Contains(x)
    ensures i == j
  {
    assert i != j ==> Apart(bs[i], bs[j]);
  }

  /** A contiguous run of free addresses lies inside one free block. */
  lemma RunInOneBlock(bs: seq<Block>, lo: nat, hi: nat, x: int, len: nat) returns (k: nat)
    requires Disjoint(bs, lo, hi) && NoAdjacentFree(bs)
    requires len > 0 && Interval(x, len) <= FreeSet(bs)
    ensures k < |bs| && !bs[k].inUse && bs[k].addr <= x && x + len <= bs[k].End()
  {
    assert x in Interval(x, len) && FreeAt(bs, x);
    k :| 0 <= k < |bs| && !bs[k].inUse && bs[k].Contains(x);
    var e := bs[k].End();
    if e < x + len {
      assert e in Interval(x, len) && FreeAt(bs, e);
      var j :| 0 <= j < |bs| && !bs[j].inUse && bs[j].Contains(e);
      NextBlockTouches(bs, lo, hi, k, j);
      assert false;
    }
  }

  /**
    Two disjoint families of free blocks without neighbours that cover the same addresses
    are the same set of ranges: after coalescing, the free ranges are determined by the
    free addresses alone.
   */
  lemma FreeRangesCanonical(bs: seq<Block>, cs: seq<Block>, lo: nat, hi: nat)
    requires Disjoint(bs, lo, hi) && NoAdjacentFree(bs)
    requires Disjoint(cs, lo, hi) && NoAdjacentFree(cs)
    requires FreeSet(bs) == FreeSet(cs)
    ensures FreeRanges(bs) == FreeRanges(cs)
  {
    forall i | 0 <= i < |bs| && !bs[i].inUse ensures (bs[i].addr, bs[i].size) in FreeRanges(cs) {
      FreeRangeInOther(bs, cs, lo, hi, i);
    }
    forall i | 0 <= i < |cs| && !cs[i].inUse ensures (cs[i].addr, cs[i].size) in FreeRanges(bs) {
      FreeRangeInOther(cs, bs, lo, hi, i);
    }
  }

  lemma FreeBlockInterval(bs: seq<Block>, i: nat)
    requires i < |bs| && !bs[i].inUse
    ensures Interval(bs[i].addr, bs[i].size) <= FreeSet(bs)
  {
    forall y | y in Interval(bs[i].addr, bs[i].size) ensures y in FreeSet(bs) {
      assert bs[i].Contains(y);
    }
  }

  lemma FreeRangeInOther(bs: seq<Block>, cs: seq<Block>, lo: nat, hi: nat, i: nat)
    requires Disjoint(bs, lo, hi) && NoAdjacentFree(bs)
    requires Disjoint(cs, lo, hi) && NoAdjacentFree(cs)
    requires FreeSet(bs) == FreeSet(cs)
    requires i < |bs| && !bs[i].inUse
    ensures (bs[i].addr, bs[i].size) in FreeRanges(cs)
  {
    var b := bs[i];
    FreeBlockInterval(bs, i);
    var j := RunInOneBlock(cs, lo, hi, b.addr, b.size);
    var c := cs[j];
    FreeBlockInterval(cs, j);
    var k := RunInOneBlock(bs, lo, hi, c.addr, c.size);
    SameSlot(bs, lo, hi, i, k, b.addr);
  }

  // ---------- First fit ----------

  /**
    Allocation finds no slot exactly when the pool has no aligned free region of the
    rounded size: refusing a request is never due to fragmented bookkeeping.
   */
  lemma NoFitIffNoRegion(bs: seq<Block>, lo: nat, hi: nat, needed: nat, align: nat)
    requires Disjoint(bs, lo, hi) && NoAdjacentFree(bs)
    requires needed > 0 && align > 0
    ensures NextFree(bs, needed, align, 0).None? <==>
            !HasRegion(bs, needed, align)
  {
    if x :| AlignedRun(bs, x, needed, align) {
      var k := RunInOneBlock(bs, lo, hi, x, needed);
      AlignUpIsLeast(bs[k].addr, align);
      assert Fits(bs[k], needed, align);
    }
    var k := NextFree(bs, needed, align, 0);
    if k.Some? {
      var b := bs[k.value];
      var at := AlignUp(b.addr, align);
      AlignUpIsLeast(b.addr, align);
      FreeBlockInterval(bs, k.value);
      assert AlignedRun(bs, at, needed, align);
    }
  }

  ghost predicate AlignedRun(bs: seq<Block>, x: int, len: nat, align: nat)
    requires align > 0
  {
    0 <= x && x % align == 0 && Interval(x, len) <= FreeSet(bs)
  }

  /** Some aligned contiguous range of free addresses has the given length. */
  ghost predicate HasRegion(bs: seq<Block>, len: nat, align: nat)
    requires align > 0
  {
    exists x :: AlignedRun(bs, x, len, align)
  }

  // ---------- Sums ----------

  lemma {:induction false} SumsAppend(bs: seq<Block>, cs: seq<Block>)
    ensures UsedSum(bs + cs) == UsedSum(bs) + UsedSum(cs)
    ensures FreeSum(bs + cs) == FreeSum(bs) + FreeSum(cs)
  {
    if cs == [] {
      assert bs + cs == bs;
    } else {
      assert (bs + cs)[..|bs + cs| - 1] == bs + cs[..|cs| - 1];
      SumsAppend(bs, cs[..|cs| - 1]);
    }
  }

  function UsedSize(b: Block): nat { if b.inUse then b.size else 0 }

  function FreeSize(b: Block): nat { if b.inUse then 0 else b.size }

  lemma {:induction false} SumsUpdate(bs: seq<Block>, k: nat, b: Block)
    requires k < |bs|
    ensures UsedSum(bs[k := b]) == UsedSum(bs) - UsedSize(bs[k]) + UsedSize(b)
    ensures FreeSum(bs[k := b]) == FreeSum(bs) - FreeSize(bs[k]) + FreeSize(b)
  {
    var last := |bs| - 1;
    if k == last {
      assert bs[k := b][..last] == bs[..last];
    } else {
      assert bs[k := b][..last] == bs[..last][k := b];
      SumsUpdate(bs[..last], k, b);
    }
  }

  // ---------- Carving ----------

  lemma SumsOne(b: Block)
    ensures UsedSum([b]) == UsedSize(b) && FreeSum([b]) == FreeSize(b)
  {
    assert [b][..0] == [];
  }

  lemma CarveSums(bs: seq<Block>, k: nat, at: nat, needed: nat)
    requires k < |bs| && !bs[k].inUse && bs[k].addr <= at && at + needed <= bs[k].End()
    ensures UsedSum(Carve(bs, k, at, needed)) == UsedSum(bs) + needed
    ensures FreeSum(Carve(bs, k, at, needed)) + needed == FreeSum(bs)
  {
    var b := bs[k];
    var mid := bs[k := Block(at, needed, true)];
    SumsUpdate(bs, k, Block(at, needed, true));
    SumsAppend(mid, LeadingHole(b, at));
    SumsAppend(mid + LeadingHole(b, at), TrailingHole(b, at + needed));
    SumsOne(Block(b.addr, at - b.addr, false));
    if at + needed < b.End() {
      SumsOne(Block(at + needed, b.End() - (at + needed), false));
    }
  }

  /** Every slot of a carved table is an old slot or a piece of the carved one. */
  lemma CarveSlots(bs: seq<Block>, k: nat, at: nat, needed: nat, i: nat)
    requires k < |bs| && bs[k].addr <= at && at + needed <= bs[k].End()
    requires i < |Carve(bs, k, at, needed)|
    ensures var c := Carve(bs, k, at, needed)[i];
            || (i < |bs| && i != k && c == bs[i])
            || (i == k && c == Block(at, needed, true))
            || (i == |bs| && bs[k].addr < at && c == Block(bs[k].addr, at - bs[k].addr, false))
            || (i >= |bs| && i == |Carve(bs, k, at, needed)| - 1 && at + needed < bs[k].End()
                && c == Block(at + needed, bs[k].End() - (at + needed), false))
  {
  }

  lemma CarveDisjoint(bs: seq<Block>, lo: nat, hi: nat, k: nat, at: nat, needed: nat)
    requires Disjoint(bs, lo, hi) && NoAdjacentFree(bs)
    requires k < |bs| && !bs[k].inUse && bs[k].addr <= at && needed > 0 && at + needed <= bs[k].End()
    ensures Disjoint(Carve(bs, k, at, needed), lo, hi) && NoAdjacentFree(Carve(bs, k, at, needed))
  {
    var cs := Carve(bs, k, at, needed);
    forall i | 0 <= i < |cs| ensures InRange(cs[i], lo, hi) {
      CarveSlots(bs, k, at, needed, i);
    }
    forall i, j | 0 <= i < |cs| && 0 <= j < |cs| && i != j
      ensures Apart(cs[i], cs[j]) && !Touch(cs[i], cs[j])
    {
      CarveSlots(bs, k, at, needed, i);
      CarveSlots(bs, k, at, needed, j);
      if i < |bs| && i != k { assert Apart(bs[i], bs[k]) && !Touch(bs[i], bs[k]) && !Touch(bs[k], bs[i]); }
      if j < |bs| && j != k { assert Apart(bs[j], bs[k]) && !Touch(bs[j], bs[k]) && !Touch(bs[k], bs[j]); }
      if i < |bs| && j < |bs| { assert Apart(bs[i], bs[j]) && !Touch(bs[i], bs[j]); }
    }
  }

  /** Carving takes exactly the carved addresses from the free ones. */
  lemma CarveFree(bs: seq<Block>, lo: nat, hi: nat, k: nat, at: nat, needed: nat)
    requires Disjoint(bs, lo, hi)
    requires k < |bs| && !bs[k].inUse && bs[k].addr <= at && at + needed <= bs[k].End()
    ensures FreeSet(Carve(bs, k, at, needed)) == FreeSet(bs) - Interval(at, needed)
    ensures CoveredSet(Carve(bs, k, at, needed)) == CoveredSet(bs)
  {
    forall x
      ensures FreeAt(Carve(bs, k, at, needed), x) <==> FreeAt(bs, x) && !(at <= x < at + needed)
      ensures Covered(Carve(bs, k, at, needed), x) <==> Covered(bs, x)
    {
      CarveFreeAt(bs, lo, hi, k, at, needed, x);
    }
  }

  lemma CarveFreeAt(bs: seq<Block>, lo: nat, hi: nat, k: nat, at: nat, needed: nat, x: int)
    requires Disjoint(bs, lo, hi)
    requires k < |bs| && !bs[k].inUse && bs[k].addr <= at && at + needed <= bs[k].End()
    ensures FreeAt(Carve(bs, k, at, needed), x) <==> FreeAt(bs, x) && !(at <= x < at + needed)
    ensures Covered(Carve(bs, k, at, needed), x) <==> Covered(bs, x)
  {
    CarveKeepsAt(bs, k, at, needed, x);
    var cs := Carve(bs, k, at, needed);
    if j :| 0 <= j < |cs| && cs[j].Contains(x) && (!cs[j].inUse || !FreeAt(cs, x)) {
      CarveSlots(bs, k, at, needed, j);
      if j < |bs| { assert Apart(bs[j], bs[k]) || j == k; }
      assert bs[if j < |bs| then j else k].Contains(x);
    }
  }

  lemma CarveKeepsAt(bs: seq<Block>, k: nat, at: nat, needed: nat, x: int)
    requires k < |bs| && !bs[k].inUse && bs[k].addr <= at && at + needed <= bs[k].End()
    ensures FreeAt(bs, x) && !(at <= x < at + needed) ==> FreeAt(Carve(bs, k, at, needed), x)
    ensures Covered(bs, x) ==> Covered(Carve(bs, k, at, needed), x)
    ensures at <= x < at + needed ==> FreeAt(bs, x)
  {
    var cs, b := Carve(bs, k, at, needed), bs[k];
    if at <= x < at + needed {
      assert b.Contains(x) && cs[k].Contains(x);
    } else if b.Contains(x) {
      HoleContains(bs, k, at, needed, x);
    } else {
      if i :| 0 <= i < |bs| && !bs[i].inUse && bs[i].Contains(x) {
        assert cs[i] == bs[i];
      }
      if i :| 0 <= i < |bs| && bs[i].Contains(x) {
        assert cs[i] == bs[i];
      }
    }
  }

  lemma HoleContains(bs: seq<Block>, k: nat, at: nat, needed: nat, x: int)
    requires k < |bs| && bs[k].addr <= at && at + needed <= bs[k].End()
    requires bs[k].Contains(x) && !(at <= x < at + needed)
    ensures FreeAt(Carve(bs, k, at, needed), x)
  {
    var cs := Carve(bs, k, at, needed);
    var h := if x < at then |bs| else |cs| - 1;
    assert cs[h].Contains(x) && !cs[h].inUse;
  }

  // ---------- Coalescing ----------

  /** No free block ends where slot k begins. */
  predicate NoLeft(bs: seq<Block>, k: nat)
    requires k < |bs|
  {
    forall y :: 0 <= y < |bs| ==> !Touch(bs[y], bs[k])
  }

  predicate Swept(bs: seq<Block>, n: nat)
    requires n <= |bs|
  {
    forall s :: 0 <= s < n ==> NoLeft(bs, s)
  }

  /** What a slot table stands for, whatever the order of its slots. */
  datatype Contents = Contents(free: iset<int>, covered: iset<int>, usedRanges: set<(nat, nat)>,
                               usedSize: nat, freeSize: nat)

  ghost function ContentsOf(bs: seq<Block>): Contents {
    Contents(FreeSet(bs), CoveredSet(bs), UsedRanges(bs), UsedSum(bs), FreeSum(bs))
  }

  ghost predicate SameContents(bs: seq<Block>, cs: seq<Block>) {
    |bs| == |cs| && ContentsOf(bs) == ContentsOf(cs)
  }

  /** Slot k takes over the block of slot j, which begins where slot k ends. */
  function Absorb(bs: seq<Block>, k: nat, j: nat): seq<Block>
    requires k < |bs| && j < |bs|
  {
    bs[k := bs[k].(size := bs[k].size + bs[j].size)][j := TOMBSTONE]
  }

  lemma MergeAtAbsorbs(bs: seq<Block>, lo: nat, hi: nat, i: nat, j: nat)
    requires Disjoint(bs, lo, hi) && i < |bs| && j < |bs| && (bs[i].inUse ==> bs[i] == TOMBSTONE)
    ensures || (MergeAt(bs, i, j) == bs && (i == j || (!Touch(bs[i], bs[j]) && !Touch(bs[j], bs[i]))))
            || (i != j && Touch(bs[i], bs[j]) && MergeAt(bs, i, j) == Absorb(bs, i, j))
            || (i != j && Touch(bs[j], bs[i]) && MergeAt(bs, i, j) == Absorb(bs, j, i))
  {
    assert InRange(bs[i], lo, hi) && InRange(bs[j], lo, hi);
  }

  lemma AbsorbDisjoint(bs: seq<Block>, lo: nat, hi: nat, k: nat, j: nat)
    requires Disjoint(bs, lo, hi) && k < |bs| && j < |bs| && k != j && Touch(bs[k], bs[j])
    ensures Disjoint(Absorb(bs, k, j), lo, hi)
  {
    var cs := Absorb(bs, k, j);
    forall a, b | 0 <= a < |cs| && 0 <= b < |cs| && a != b ensures Apart(cs[a], cs[b]) {
      assert Apart(bs[a], bs[b]);
      if a != j && b != j {
        assert Apart(bs[a], bs[j]) && Apart(bs[j], bs[b]);
        assert InRange(bs[a], lo, hi) && InRange(bs[b], lo, hi) && InRange(bs[j], lo, hi);
      }
    }
  }

  lemma AbsorbKeeps(bs: seq<Block>, lo: nat, hi: nat, k: nat, j: nat)
    requires Disjoint(bs, lo, hi) && k < |bs| && j < |bs| && k != j && Touch(bs[k], bs[j])
    ensures SameContents(bs, Absorb(bs, k, j))
  {
    var cs := Absorb(bs, k, j);
    SumsUpdate(bs, k, bs[k].(size := bs[k].size + bs[j].size));
    SumsUpdate(bs[k := bs[k].(size := bs[k].size + bs[j].size)], j, TOMBSTONE);
    forall x ensures FreeAt(cs, x) <==> FreeAt(bs, x) ensures Covered(cs, x) <==> Covered(bs, x) {
      AbsorbAt(bs, k, j, x);
    }
    assert ContentsOf(cs).free == ContentsOf(bs).free && ContentsOf(cs).covered == ContentsOf(bs).covered;
    forall i | 0 <= i < |bs| && bs[i].inUse && bs[i].size > 0 ensures (bs[i].addr, bs[i].size) in UsedRanges(cs) {
      assert cs[i] == bs[i];
    }
    forall i | 0 <= i < |cs| && cs[i].inUse && cs[i].size > 0 ensures (cs[i].addr, cs[i].size) in UsedRanges(bs) {
      assert cs[i] == bs[i];
    }
  }

  lemma AbsorbAt(bs: seq<Block>, k: nat, j: nat, x: int)
    requires k < |bs| && j < |bs| && k != j && Touch(bs[k], bs[j])
    ensures FreeAt(Absorb(bs, k, j), x) <==> FreeAt(bs, x)
    ensures Covered(Absorb(bs, k, j), x) <==> Covered(bs, x)
  {
    var cs := Absorb(bs, k, j);
    if i :| 0 <= i < |bs| && bs[i].Contains(x) && (!bs[i].inUse || !FreeAt(bs, x)) {
      assert cs[if i == j then k else i].Contains(x);
    }
    if i :| 0 <= i < |cs| && cs[i].Contains(x) && (!cs[i].inUse || !FreeAt(cs, x)) {
      assert bs[if i == k && bs[j].Contains(x) then j else i].Contains(x);
    }
  }

  /** Blocks only grow to the right, so a merge gives no slot a left neighbour that it lacked. */
  lemma AbsorbNoLeft(bs: seq<Block>, k: nat, j: nat, s: nat)
    requires k < |bs| && j < |bs| && k != j && Touch(bs[k], bs[j]) && s < |bs| && NoLeft(bs, s)
    ensures NoLeft(Absorb(bs, k, j), s)
  {
    var cs := Absorb(bs, k, j);
    forall y | 0 <= y < |cs| ensures !Touch(cs[y], cs[s]) {
      assert !Touch(bs[y], bs[s]) && !Touch(bs[j], bs[s]);
    }
  }

  ghost predicate RowInv(bs: seq<Block>, lo: nat, hi: nat, i: nat, j: nat)
    requires i < |bs| && j <= |bs|
  {
    && Disjoint(bs, lo, hi)
    && (bs[i].inUse ==> bs[i] == TOMBSTONE)
    && Swept(bs, i)
    && (forall y :: 0 <= y < j ==> !Touch(bs[y], bs[i]))
  }

  lemma MergeStep(bs: seq<Block>, lo: nat, hi: nat, i: nat, j: nat)
    requires i < |bs| && j < |bs| && RowInv(bs, lo, hi, i, j)
    ensures RowInv(MergeAt(bs, i, j), lo, hi, i, j + 1)
    ensures SameContents(bs, MergeAt(bs, i, j))
  {
    MergeAtAbsorbs(bs, lo, hi, i, j);
    if i != j && Touch(bs[i], bs[j]) && MergeAt(bs, i, j) == Absorb(bs, i, j) {
      AbsorbStep(bs, lo, hi, i, j, i, j);
    } else if i != j && Touch(bs[j], bs[i]) && MergeAt(bs, i, j) == Absorb(bs, j, i) {
      AbsorbStep(bs, lo, hi, i, j, j, i);
    } else {
      assert InRange(bs[i], lo, hi);
    }
  }

  lemma AbsorbStep(bs: seq<Block>, lo: nat, hi: nat, i: nat, j: nat, k: nat, d: nat)
    requires i < |bs| && j < |bs| && i != j && RowInv(bs, lo, hi, i, j)
    requires (k == i && d == j) || (k == j && d == i)
    requires Touch(bs[k], bs[d])
    ensures RowInv(Absorb(bs, k, d), lo, hi, i, j + 1)
    ensures SameContents(bs, Absorb(bs, k, d))
  {
    AbsorbDisjoint(bs, lo, hi, k, d);
    AbsorbKeeps(bs, lo, hi, k, d);
    var cs := Absorb(bs, k, d);
    forall s | 0 <= s < i ensures NoLeft(cs, s) {
      AbsorbNoLeft(bs, k, d, s);
    }
    if k == i {
      assert InRange(bs[i], lo, hi) && InRange(bs[j], lo, hi);
      forall y | 0 <= y < j + 1 ensures !Touch(cs[y], cs[i]) {
        assert y < j ==> !Touch(bs[y], bs[i]);
      }
    }
  }

  lemma {:induction false} RowKeeps(bs: seq<Block>, lo: nat, hi: nat, i: nat, j: nat)
    requires i < |bs| && j <= |bs| && RowInv(bs, lo, hi, i, j)
    ensures RowInv(CoalesceRow(bs, i, j), lo, hi, i, |bs|)
    ensures SameContents(bs, CoalesceRow(bs, i, j))
    decreases |bs| - j
  {
    hide Disjoint, NoLeft, Swept, ContentsOf, Touch;
    if j < |bs| {
      var mid := MergeAt(bs, i, j);
      MergeStep(bs, lo, hi, i, j);
      RowKeeps(mid, lo, hi, i, j + 1);
    }
  }

  lemma {:induction false} CoalesceFromKeeps(bs: seq<Block>, lo: nat, hi: nat, i: nat)
    requires i <= |bs| && Disjoint(bs, lo, hi)
    requires Swept(bs, i)
    ensures Disjoint(CoalesceFrom(bs, i), lo, hi)
    ensures Swept(CoalesceFrom(bs, i), |bs|)
    ensures SameContents(bs, CoalesceFrom(bs, i))
    decreases |bs| - i
  {
    hide Disjoint, NoLeft, Swept, ContentsOf;
    if i < |bs| {
      var mid := if bs[i].inUse then bs else CoalesceRow(bs, i, 0);
      SlotKeeps(bs, lo, hi, i);
      CoalesceFromKeeps(mid, lo, hi, i + 1);
    }
  }

  lemma SlotKeeps(bs: seq<Block>, lo: nat, hi: nat, i: nat)
    requires i < |bs| && Disjoint(bs, lo, hi)
    requires Swept(bs, i)
    ensures var mid := if bs[i].inUse then bs else CoalesceRow(bs, i, 0);
            Disjoint(mid, lo, hi) && Swept(mid, i + 1) && SameContents(bs, mid)
  {
    if bs[i].inUse {
      assert NoLeft(bs, i);
    } else {
      RowKeeps(bs, lo, hi, i, 0);
      assert NoLeft(CoalesceRow(bs, i, 0), i);
    }
  }

  /**
    One pass in slot order leaves no two free blocks touching, from any table without
    overlaps and in any slot order, and changes neither the free nor the used addresses.
   */
  lemma CoalesceNormalises(bs: seq<Block>, lo: nat, hi: nat)
    requires Disjoint(bs, lo, hi)
    ensures Disjoint(CoalesceFrom(bs, 0), lo, hi)
    ensures NoAdjacentFree(CoalesceFrom(bs, 0))
    ensures SameContents(bs, CoalesceFrom(bs, 0))
  {
    CoalesceFromKeeps(bs, lo, hi, 0);
    var cs := CoalesceFrom(bs, 0);
    forall i, j | 0 <= i < |cs| && 0 <= j < |cs| ensures !Touch(cs[i], cs[j]) {
      assert NoLeft(cs, j);
    }
  }

  /**
    Two free blocks that touch become one, in the slot of the lower of the two; the other slot
    becomes an empty one that is never used again. Anything else stays as it is.
   */
  lemma MergeIs(bs: seq<Block>, i: nat, j: nat)
    requires i < |bs| && j < |bs| && i != j && !bs[i].inUse && bs[i].size > 0 && bs[j].size > 0
    ensures var b, c, after := bs[i], bs[j], MergeAt(bs, i, j);
            if !c.inUse && b.addr + b.size == c.addr
            then after == bs[i := Block(b.addr, b.size + c.size, false)][j := Block(0, 0, true)]
            else if !c.inUse && c.addr + c.size == b.addr
            then after == bs[j := Block(c.addr, b.size + c.size, false)][i := Block(0, 0, true)]
            else after == bs
  {
  }
}
