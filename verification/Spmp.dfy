/**
  The SPMP pool allocator: first fit over an unordered slot table, splitting for
  alignment, tombstones for dead slots and a one-pass coalescer.

  The value-level functions say what one call does to the slot table; the class
  `SlotTable` does the same work in place on the fixed-size table.
 */
module Spmp {
  import opened Bits

  const BLOCK_ALIGN := 16
  const MIN_BLOCK := 64
  const MAX_BLOCKS := 512

  /** Addresses stay below this bound, so that rounding up to any alignment cannot wrap. */
  const ADDR_LIMIT := 0x8000_0000_0000_0000

  datatype Block = Block(addr: nat, size: nat, inUse: bool) {
    function End(): nat { addr + size }

    predicate Contains(x: int) { addr <= x < End() }
  }

  /** What a merge leaves in the slot that it empties. */
  const TOMBSTONE := Block(0, 0, true)

  datatype Status = Ok | Invalid | NoSpace | NoMemory | NoEntry

  /** The state of one pool: its address range, its slots and its `used` counter. */
  datatype Pool = Pool(lo: nat, hi: nat, blocks: seq<Block>, used: nat)

  datatype AllocResult = AllocResult(pool: Pool, status: Status, addr: nat, size: nat)

  datatype FreeResult = FreeResult(pool: Pool, status: Status)

  // ---------- Invariants ----------

  predicate Apart(b: Block, c: Block) {
    b.End() <= c.addr || c.End() <= b.addr
  }

  predicate InRange(b: Block, lo: nat, hi: nat) {
    b == TOMBSTONE || (b.size > 0 && lo <= b.addr && b.End() <= hi)
  }

  /** The blocks that are not tombstones lie in [lo, hi) and do not overlap. */
  predicate Disjoint(bs: seq<Block>, lo: nat, hi: nat) {
    && 0 < lo
    && (forall i :: 0 <= i < |bs| ==> InRange(bs[i], lo, hi))
    && (forall i, j :: 0 <= i < |bs| && 0 <= j < |bs| && i != j ==> Apart(bs[i], bs[j]))
  }

  ghost predicate Covered(bs: seq<Block>, x: int) {
    exists i :: 0 <= i < |bs| && bs[i].Contains(x)
  }

  ghost predicate FreeAt(bs: seq<Block>, x: int) {
    exists i :: 0 <= i < |bs| && !bs[i].inUse && bs[i].Contains(x)
  }

  /** The addresses of some block, and those of some free block. */
  ghost function CoveredSet(bs: seq<Block>): iset<int> { iset x | Covered(bs, x) }

  ghost function FreeSet(bs: seq<Block>): iset<int> { iset x | FreeAt(bs, x) }

  ghost function Interval(x: int, len: int): iset<int> { iset y: int {:trigger Within(x, len, y)} | Within(x, len, y) }

  predicate Within(x: int, len: int, y: int) { x <= y < x + len }

  /** The blocks tile [lo, hi): no gap and no overlap. */
  ghost predicate Tiles(bs: seq<Block>, lo: nat, hi: nat) {
    Disjoint(bs, lo, hi) && CoveredSet(bs) == Interval(lo, hi - lo)
  }

  predicate Touch(b: Block, c: Block) {
    !b.inUse && !c.inUse && b.End() == c.addr
  }

  predicate NoAdjacentFree(bs: seq<Block>) {
    forall i, j :: 0 <= i < |bs| && 0 <= j < |bs| ==> !Touch(bs[i], bs[j])
  }

  function UsedSum(bs: seq<Block>): nat {
    if bs == [] then 0
    else UsedSum(bs[..|bs| - 1]) + (if bs[|bs| - 1].inUse then bs[|bs| - 1].size else 0)
  }

  function FreeSum(bs: seq<Block>): nat {
    if bs == [] then 0
    else FreeSum(bs[..|bs| - 1]) + (if bs[|bs| - 1].inUse then 0 else bs[|bs| - 1].size)
  }

  function FreeRanges(bs: seq<Block>): set<(nat, nat)> {
    set i | 0 <= i < |bs| && !bs[i].inUse :: (bs[i].addr, bs[i].size)
  }

  function UsedRanges(bs: seq<Block>): set<(nat, nat)> {
    set i | 0 <= i < |bs| && bs[i].inUse && bs[i].size > 0 :: (bs[i].addr, bs[i].size)
  }

  /** What holds between any two calls. */
  ghost predicate Inv(p: Pool) {
    && p.lo < p.hi <= ADDR_LIMIT
    && |p.blocks| <= MAX_BLOCKS
    && Tiles(p.blocks, p.lo, p.hi)
    && NoAdjacentFree(p.blocks)
    && p.used == UsedSum(p.blocks)
    && p.used + FreeSum(p.blocks) == p.hi - p.lo
  }

  // ---------- Operations ----------

  function Create(lo: nat, size: nat): Pool {
    Pool(lo, lo + size, [Block(lo, size, false)], 0)
  }

  /** The request rounded up to the block granule, in `size_t` arithmetic. */
  function Needed(size: nat): nat {
    var n := (size + BLOCK_ALIGN - 1) % TWO_64 / BLOCK_ALIGN * BLOCK_ALIGN;
    if n < MIN_BLOCK then MIN_BLOCK else n
  }

  function Alignment(alignment: nat): (a: nat)
    ensures a >= BLOCK_ALIGN
  {
    if alignment > BLOCK_ALIGN then alignment else BLOCK_ALIGN
  }

  function AlignUp(addr: nat, align: nat): nat
    requires align > 0
  {
    if addr % align == 0 then addr else addr + (align - addr % align)
  }

  predicate Fits(b: Block, needed: nat, align: nat)
    requires align > 0
  {
    !b.inUse && AlignUp(b.addr, align) <= b.End() && b.End() - AlignUp(b.addr, align) >= needed
  }

  /** The first slot, from slot i on, that holds an aligned region of the given size. */
  function NextFree(bs: seq<Block>, needed: nat, align: nat, i: nat): (k: Option<nat>)
    requires align > 0 && i <= |bs|
    ensures k.Some? ==> i <= k.value < |bs| && Fits(bs[k.value], needed, align)
    ensures k.Some? ==> forall j :: i <= j < k.value ==> !Fits(bs[j], needed, align)
    ensures k.None? ==> forall j :: i <= j < |bs| ==> !Fits(bs[j], needed, align)
    decreases |bs| - i
  {
    if i == |bs| then None
    else if Fits(bs[i], needed, align) then Some(i)
    else NextFree(bs, needed, align, i + 1)
  }

  function LeadingHole(b: Block, at: nat): seq<Block>
    requires b.addr <= at
  {
    if b.addr < at then [Block(b.addr, at - b.addr, false)] else []
  }

  function TrailingHole(b: Block, at: nat): seq<Block> {
    if at < b.End() then [Block(at, b.End() - at, false)] else []
  }

  /** Carve [at, at + needed) out of slot k; the holes go to fresh slots. */
  function Carve(bs: seq<Block>, k: nat, at: nat, needed: nat): seq<Block>
    requires k < |bs| && bs[k].addr <= at
  {
    bs[k := Block(at, needed, true)] + LeadingHole(bs[k], at) + TrailingHole(bs[k], at + needed)
  }

  function Alloc(p: Pool, size: nat, alignment: nat): AllocResult {
    if size == 0 then AllocResult(p, Invalid, 0, 0)
    else if |p.blocks| >= MAX_BLOCKS then AllocResult(p, NoSpace, 0, 0)
    else
      var needed, align := Needed(size), Alignment(alignment);
      match NextFree(p.blocks, needed, align, 0)
      case None => AllocResult(p, NoMemory, 0, 0)
      case Some(k) =>
        var at := AlignUp(p.blocks[k].addr, align);
        var lead := p.blocks + LeadingHole(p.blocks[k], at);
        if TrailingHole(p.blocks[k], at + needed) != [] && |lead| >= MAX_BLOCKS then
          AllocResult(p.(blocks := lead), NoSpace, 0, 0)
        else
          AllocResult(p.(blocks := Carve(p.blocks, k, at, needed), used := (p.used + needed) % TWO_64), Ok, at, needed)
  }

  /** One step of the inner coalescing loop: slot i against slot j. */
  function MergeAt(bs: seq<Block>, i: nat, j: nat): (r: seq<Block>)
    requires i < |bs| && j < |bs|
    ensures |r| == |bs|
  {
    if j == i || bs[j].inUse then bs
    else if bs[i].End() == bs[j].addr then bs[i := bs[i].(size := bs[i].size + bs[j].size)][j := TOMBSTONE]
    else if bs[j].End() == bs[i].addr then bs[j := bs[j].(size := bs[j].size + bs[i].size)][i := TOMBSTONE]
    else bs
  }

  function CoalesceRow(bs: seq<Block>, i: nat, j: nat): (r: seq<Block>)
    requires i < |bs| && j <= |bs|
    ensures |r| == |bs|
    decreases |bs| - j
  {
    if j == |bs| then bs else CoalesceRow(MergeAt(bs, i, j), i, j + 1)
  }

  function CoalesceFrom(bs: seq<Block>, i: nat): (r: seq<Block>)
    requires i <= |bs|
    ensures |r| == |bs|
    decreases |bs| - i
  {
    if i == |bs| then bs
    else CoalesceFrom(if bs[i].inUse then bs else CoalesceRow(bs, i, 0), i + 1)
  }

  /** The first slot, from slot i on, that holds exactly the given allocation. */
  function FindUsed(bs: seq<Block>, addr: nat, size: nat, i: nat): (k: Option<nat>)
    requires i <= |bs|
    ensures k.Some? ==> i <= k.value < |bs| && bs[k.value] == Block(addr, size, true)
    ensures k.None? ==> forall j :: i <= j < |bs| ==> bs[j] != Block(addr, size, true)
    decreases |bs| - i
  {
    if i == |bs| then None
    else if bs[i] == Block(addr, size, true) then Some(i)
    else FindUsed(bs, addr, size, i + 1)
  }

  function Free(p: Pool, addr: nat, size: nat): FreeResult {
    if addr == 0 then FreeResult(p, Invalid)
    else
      match FindUsed(p.blocks, addr, size, 0)
      case None => FreeResult(p, NoEntry)
      case Some(k) =>
        var freed := p.blocks[k := p.blocks[k].(inUse := false)];
        FreeResult(p.(blocks := CoalesceFrom(freed, 0), used := (p.used - size) % TWO_64), Ok)
  }
}
