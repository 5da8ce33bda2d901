/** The collectives in place: every rank owns a memory that is bound into a fabric window. */
module Bvcomm {
  import opened Bits
  import opened Fabric
  import opened RingSpec
  import opened RingProofs
  import opened GatherSpec

  const STRIDE := 0x1_0000_0000
  const MAX_RANKS := MAX_NODES

  /** x modulo n, for x below 3n. */
  lemma ModBelow3(x: nat, n: nat)
    requires n > 0 && x < 3 * n
    ensures x % n == if x < n then x else if x < 2 * n then x - n else x - 2 * n
  {
    DivMod(x, n);
    QuotientBelow3(n, x / n, x % n);
  }

  lemma QuotientBelow3(n: nat, q: int, r: nat)
    requires r < n && 0 <= n * q + r < 3 * n
    ensures n * q + r == r || n * q + r == n + r || n * q + r == 2 * n + r
  {
    if q >= 3 { MulLe(3, q, n); }
    if q < 0 { MulLe(q, -1, n); }
  }

  lemma OffsetSteps(count: nat, n: nat, i: nat)
    requires n > 0
    ensures Offset(count, n, 0) == 0
    ensures Offset(count, n, i + 1) == Offset(count, n, i) + ChunkBase(count, n) + if i < ChunkRem(count, n) then 1 else 0
  {
  }

  /** The shift of the rounds: rank r sends chunk r - s + d, which is r + Shift modulo n. */
  function Shift(n: nat, s: nat, d: nat): nat
    requires s < n && d <= 1
  {
    if s == 0 && d == 1 then 1 else n - s + d
  }

  /** The chunk that rank r sends in round s; d is 0 while reducing and 1 while gathering. */
  function SendIndex(n: nat, r: nat, s: nat, d: nat): int
    requires 0 < n
  {
    (r - s + d + n) % n
  }

  function RecvIndex(n: nat, q: nat, s: nat, d: nat): int
    requires 0 < n
  {
    (q - s - 1 + d + n) % n
  }

  function NextIndex(n: nat, r: nat): int
    requires 0 < n
  {
    (r + 1) % n
  }

  lemma SendChunk(n: nat, r: nat, s: nat, d: nat)
    requires 2 <= n && r < n && s < n - 1 && d <= 1
    ensures Shift(n, s, d) <= n
    ensures SendIndex(n, r, s, d) == Wrap(r + Shift(n, s, d), n) < n
  {
    ModBelow3(r - s + d + n, n);
  }

  lemma RecvChunk(L: Layout, q: nat, s: nat, d: nat)
    requires 2 <= L.n && q < L.n && s < L.n - 1 && d <= 1
    ensures Shift(L.n, s, d) <= L.n
    ensures RecvIndex(L.n, q, s, d) == Wrap(L.Prev(q) + Shift(L.n, s, d), L.n) < L.n
  {
    ModBelow3(q - s - 1 + d + L.n, L.n);
  }

  lemma NextRank(L: Layout, r: nat)
    requires r < L.n
    ensures NextIndex(L.n, r) == L.Next(r) < L.n
    ensures forall q :: 0 <= q < L.n ==> L.Prev(q) < L.n && (L.Prev(q) == r <==> q == L.Next(r))
  {
    ModBelow3(r + 1, L.n);
  }

  /** A byte counter of 32 bits after b more bytes. */
  function Plus(a: Word, b: int): Word { (a + b) % WORD }

  lemma PlusAssociates(a: Word, b: int, c: int)
    ensures Plus(Plus(a, b), c) == Plus(a, b + c)
  {
  }

  /** c bytes, k times. */
  function Times(k: int, c: int): int { k * c }

  lemma TimesLaws(k: int, c: int)
    ensures Times(0, c) == 0 && Times(k + 1, c) == Times(k, c) + c && Times(2 * k, c) == Times(k, c) + Times(k, c)
  {
  }

  lemma TimesAdds(a: int, b: int, c: int)
    ensures Times(a + b, c) == Times(a, c) + Times(b, c)
  {
  }

  /** What the byte counter holds after k transfers of c bytes. */
  lemma TrafficWritten(a: Word, k: int, c: int)
    ensures Plus(a, Times(k, c)) == (a + k * c) % WORD
  {
  }

  /** The inbox must take count / n elements, rounded up. */
  lemma ChunkCeiling(count: nat, n: nat)
    requires n > 0
    ensures MaxChunk(count, n) == (count + n - 1) / n
  {
    var b, r := count / n, count % n;
    assert count == b * n + r;
    if r > 0 {
      assert count + n - 1 == (b + 1) * n + (r - 1);
      DivUnique(count + n - 1, n, b + 1, r - 1);
    } else {
      DivUnique(count + n - 1, n, b, n - 1);
    }
  }

  lemma PlusNothing(a: Word)
    ensures Plus(a, 0) == a
  {
  }

  /** Elements sent by ranks below r when rank r sends chunk r + t. */
  function SentBefore(L: Layout, t: nat, r: nat): int
    requires L.Valid() && t <= L.n && r <= L.n
  {
    if r + t <= L.n then L.Begin(r + t) - L.Begin(t)
    else L.count - L.Begin(t) + L.Begin(r + t - L.n)
  }

  lemma SentBeforeStep(L: Layout, t: nat, r: nat)
    requires L.Valid() && t <= L.n && r < L.n
    ensures SentBefore(L, t, r + 1) == SentBefore(L, t, r) + L.ChunkLen(Wrap(r + t, L.n))
    ensures SentBefore(L, t, 0) == 0 && SentBefore(L, t, L.n) == L.count
  {
    LastChunkEnds(L);
    ChunkInRange(L, Wrap(r + t, L.n));
  }

  /** The rounds follow the shifts of the source's index expressions. */
  lemma RoundSteps(L: Layout, add: Adder, x: seq<seq<Byte>>, s: nat)
    requires L.Valid() && L.Fits(x) && 2 <= L.n && s < L.n - 1
    ensures ReduceRounds(L, add, x, 0) == x && GatherRounds(L, x, 0) == x
    ensures Shift(L.n, s, 0) <= L.n && Shift(L.n, s, 1) <= L.n
    ensures ReduceRounds(L, add, x, s + 1) == ReduceRound(L, add, ReduceRounds(L, add, x, s), Shift(L.n, s, 0))
    ensures GatherRounds(L, x, s + 1) == GatherRound(L, GatherRounds(L, x, s), Shift(L.n, s, 1))
  {
    hide ReduceRound, GatherRound;
  }

  // ---------- Size tests that can wrap ----------

  /** The end of an element range in bytes, as the source computes it. */
  function ByteEnd(off: nat, count: nat): nat { (off + count) % TWO_64 * 4 % TWO_64 }

  /** The end does not wrap, or wraps to a value that is refused all the same. */
  predicate RangeExact(off: nat, count: nat, bufBytes: nat) {
    4 * (off + count) < TWO_64 || ByteEnd(off, count) > bufBytes
  }

  /** The range test of the collectives is right exactly for those ranges. */
  lemma RangeTestIff(off: nat, count: nat, bufBytes: nat)
    requires bufBytes < TWO_64
    ensures (ByteEnd(off, count) > bufBytes <==> 4 * (off + count) > bufBytes) <==> RangeExact(off, count, bufBytes)
  {
    var x := off + count;
    assert 4 * x < TWO_64 ==> ByteEnd(off, count) == 4 * x;
  }

  /** One element at offset 2^62 passes the test of any buffer of four bytes. */
  lemma RangeTestMisses(bufBytes: nat)
    requires 4 <= bufBytes < TWO_64
    ensures ByteEnd(0x4000_0000_0000_0000, 1) <= bufBytes < 4 * (0x4000_0000_0000_0000 + 1)
    ensures !RangeExact(0x4000_0000_0000_0000, 1, bufBytes)
  {
  }

  predicate SizeExact(bufBytes: nat, scratchBytes: nat) {
    bufBytes + scratchBytes < TWO_64 || (bufBytes + scratchBytes) % TWO_64 >= STRIDE
  }

  /** So is the stride test of the initialisation; a window of one byte passes for 2^64 - 1 and 2. */
  lemma SizeTestIff(bufBytes: nat, scratchBytes: nat)
    ensures ((bufBytes + scratchBytes) % TWO_64 >= STRIDE <==> bufBytes + scratchBytes >= STRIDE)
            <==> SizeExact(bufBytes, scratchBytes)
    ensures !SizeExact(TWO_64 - 1, 2)
  {
  }

  class World {
    const n: nat
    const bufBytes: nat
    const scratchBytes: nat
    const mem: seq<array<Byte>>
    const fabric: FabricState

    constructor (n: nat, bufBytes: nat, scratchBytes: nat, mem: seq<array<Byte>>, fabric: FabricState)
      ensures this.n == n && this.bufBytes == bufBytes && this.scratchBytes == scratchBytes
      ensures this.mem == mem && this.fabric == fabric
    {
      this.n, this.bufBytes, this.scratchBytes, this.mem, this.fabric := n, bufBytes, scratchBytes, mem, fabric;
    }

    /** The ranks' memories are distinct, of one size, and bound into the fabric's windows. */
    ghost predicate Wired(nodes: seq<Node>) {
      && 1 <= n <= MAX_RANKS && |mem| == n && bufBytes + scratchBytes < STRIDE && 0 < bufBytes
      && (forall r :: 0 <= r < n ==> mem[r].Length == bufBytes + scratchBytes)
      && (forall p, q :: 0 <= p < q < n ==> mem[p] != mem[q])
      && |nodes| == n
      && (forall r :: 0 <= r < n ==>
            nodes[r] == Node(Base(r), Base(r) + bufBytes + scratchBytes - 1, 20, mem[r]))
    }

    ghost predicate Valid()
      reads fabric
    {
      Wired(fabric.nodes)
    }

    function Base(r: nat): nat { r * STRIDE }

    function LayoutFor(off: nat, count: nat): Layout { Layout(n, bufBytes, scratchBytes, off, count) }

    /** The memories of all ranks. */
    ghost function Mems(): (ms: seq<seq<Byte>>)
      requires |mem| == n
      reads mem
      ensures |ms| == n && forall r :: 0 <= r < n ==> ms[r] == mem[r][..]
    {
      seq(n, r requires 0 <= r < |mem| reads mem => mem[r][..])
    }

    /** A region inside a rank's memory passes the fabric's tests. */
    lemma RankPasses(nodes: seq<Node>, r: nat, at: nat, len: nat)
      requires Wired(nodes) && r < n && 0 < len && at + len <= bufBytes + scratchBytes
      ensures |nodes| == n == |mem| && nodes[r].mem == mem[r] && nodes[r].base == Base(r)
      ensures mem[r].Length == bufBytes + scratchBytes && Base(r) + at + len < TWO_64
      ensures RegionValid(nodes[r], Base(r) + at, len) && Translates(nodes[r], Base(r) + at)
      ensures Fabric.InMemory(nodes[r], Base(r) + at, len)
    {
      RegionTranslates(nodes[r], Base(r) + at, len);
    }

    /** A transfer that stays inside the two ranks' memories is never refused. */
    method Transfer(src: nat, from: nat, dst: nat, at: nat, len: nat)
      requires Valid() && src < n && dst < n && 0 < len
      requires from + len <= bufBytes + scratchBytes && at + len <= bufBytes + scratchBytes
      modifies fabric, mem[dst]
      ensures fabric.nodes == old(fabric.nodes) && fabric.dmaBytes == Plus(old(fabric.dmaBytes), len)
      ensures mem[dst][..] == Blit(old(mem[dst][..]), at, old(mem[src][..])[from..from + len])
    {
      hide Wired, RegionValid, Translates, Fabric.InMemory, Base, Blit;
      RankPasses(fabric.nodes, src, from, len);
      RankPasses(fabric.nodes, dst, at, len);
      var rc := fabric.Dma(Channel(src, dst, true), Base(src) + from, Base(dst) + at, len);
      assert rc.Done?;
    }

    /** chunk_offsets of the source. */
    method ChunkOffsets(n: nat, count: nat) returns (cs: array<nat>)
      requires n > 0
      ensures fresh(cs) && cs.Length == n + 1 && forall i :: 0 <= i <= n ==> cs[i] == Offset(count, n, i)
    {
      hide ChunkBase, ChunkRem, Offset;
      var base, rem := ChunkBase(count, n), ChunkRem(count, n);
      OffsetSteps(count, n, 0);
      cs := new nat[n + 1](_ => 0);
      for i := 0 to n
        invariant forall j :: 0 <= j <= i ==> cs[j] == Offset(count, n, j)
      {
        OffsetSteps(count, n, i);
        cs[i + 1] := cs[i] + base + if i < rem then 1 else 0;
      }
    }

    ghost predicate Holds(ms: seq<seq<Byte>>)
      requires |mem| == n
      reads mem
    {
      |ms| == n && forall r :: 0 <= r < n ==> mem[r][..] == ms[r]
    }

    /** What the rounds need to know about their tables. */
    ghost predicate Planned(L: Layout, off: nat, cs: seq<nat>)
    {
      && L == LayoutFor(off, L.count) && L.Valid() && 2 <= n
      && |cs| == n + 1 && forall i :: 0 <= i <= n ==> cs[i] == L.Begin(i)
    }

    /** The send half of a round, rank after rank. */
    method SendRound(ghost L: Layout, off: nat, cs: seq<nat>, s: nat, d: nat, ghost x: seq<seq<Byte>>)
      requires Valid() && Planned(L, off, cs) && s < n - 1 && d <= 1 && L.Fits(x) && Holds(x)
      modifies fabric, mem
      ensures fabric.nodes == old(fabric.nodes) && Shift(n, s, d) <= n && Holds(SentAll(L, x, Shift(n, s, d)))
      ensures fabric.dmaBytes == Plus(old(fabric.dmaBytes), 4 * L.count)
    {
      hide Planned, Layout.Valid, Plus, Wired, Holds, Layout.Prev, Layout.Next, Offset, Sent;
      hide SentAll, Blit, Shift, SentBefore, Wrap, MaxChunk, Layout.ChunkLen, ChunkBase, ChunkRem;
      ghost var t := Shift(n, s, d);
      WiredShape(fabric.nodes);
      PlannedShape(L, off, cs);
      SendChunk(n, 0, s, d);
      SentBeforeStep(L, t, 0);
      PlusNothing(fabric.dmaBytes);
      ghost var ms, sent := x, SentAll(L, x, t);
      for r := 0 to n
        invariant fabric.nodes == old(fabric.nodes) && |ms| == n && Holds(ms)
        invariant forall q :: 0 <= q < n ==> ms[q] == if L.Prev(q) < r then sent[q] else x[q]
        invariant fabric.dmaBytes == Plus(old(fabric.dmaBytes), 4 * SentBefore(L, t, r))
      {
        NextRank(L, r);
        SentBeforeStep(L, t, r);
        SendOne(L, off, cs, s, d, r, x, ms);
        PlusAssociates(old(fabric.dmaBytes), 4 * SentBefore(L, t, r), 4 * L.ChunkLen(Wrap(r + t, n)));
        ms := ms[L.Next(r) := sent[L.Next(r)]];
      }
      NextRank(L, 0);
      assert ms == sent;
    }

    /** Rank r sends its chunk of the round to the next rank's inbox. */
    method SendOne(ghost L: Layout, off: nat, cs: seq<nat>, s: nat, d: nat, r: nat,
                   ghost x: seq<seq<Byte>>, ghost ms: seq<seq<Byte>>)
      requires Valid() && Planned(L, off, cs) && s < n - 1 && d <= 1 && L.Fits(x) && r < n && Shift(n, s, d) <= n && Holds(ms)
      requires ms[r] == x[r] || ms[r] == Sent(L, x, Shift(n, s, d), r)
      requires ms[L.Next(r)] == x[L.Next(r)]
      modifies fabric, mem[L.Next(r)]
      ensures fabric.nodes == old(fabric.nodes)
      ensures Holds(ms[L.Next(r) := Sent(L, x, Shift(n, s, d), L.Next(r))])
      ensures fabric.dmaBytes == Plus(old(fabric.dmaBytes), 4 * L.ChunkLen(Wrap(r + Shift(n, s, d), n)))
    {
      hide Plus, Offset, Sent, Blit, Shift, SendIndex, NextIndex, Wrap, MaxChunk, Layout.ChunkLen, ChunkBase, ChunkRem;
      ghost var t := Shift(n, s, d);
      SendChunk(n, r, s, d);
      NextRank(L, r);
      var send, nxt := SendIndex(n, r, s, d), NextIndex(n, r);
      ChunkInRange(L, send);
      SentIsBlit(L, x, t, nxt);
      var len := 4 * (cs[send + 1] - cs[send]);
      SliceOfSent(L, x, t, r, L.Addr(L.Begin(send)), len, mem[r][..]);
      if len > 0 {
        Transfer(r, 4 * (off + cs[send]), nxt, bufBytes, len);
      } else {
        PlusNothing(fabric.dmaBytes);
        BlitNothing(x[nxt], bufBytes, x[r][L.Addr(L.Begin(send))..L.Addr(L.Begin(send)) + 0]);
      }
    }

    /** The combining half of a reduce round. */
    method AddRound(ghost L: Layout, add: Adder, off: nat, cs: seq<nat>, s: nat, ghost x: seq<seq<Byte>>)
      requires Valid() && Planned(L, off, cs) && s < n - 1 && L.Fits(x)
      requires Shift(n, s, 0) <= n && Holds(SentAll(L, x, Shift(n, s, 0)))
      modifies mem
      ensures Holds(ReduceRound(L, add, x, Shift(n, s, 0)))
    {
      hide Offset, SentAll, AddInto, RecvIndex, Wrap, ReduceRound, Shift, MaxChunk, Layout.ChunkLen, ChunkBase, ChunkRem;
      ghost var t := Shift(n, s, 0);
      ghost var sent, after := SentAll(L, x, t), ReduceRound(L, add, x, t);
      ghost var ms := sent;
      for r := 0 to n
        invariant Holds(ms) && forall q :: 0 <= q < n ==> ms[q] == if q < r then after[q] else sent[q]
      {
        AddOne(L, add, off, cs, s, r, x, ms);
        ms := ms[r := after[r]];
      }
      assert ms == after;
    }

    method AddOne(ghost L: Layout, add: Adder, off: nat, cs: seq<nat>, s: nat, r: nat,
                  ghost x: seq<seq<Byte>>, ghost ms: seq<seq<Byte>>)
      requires Valid() && Planned(L, off, cs) && s < n - 1 && L.Fits(x) && r < n && Shift(n, s, 0) <= n && Holds(ms)
      requires ms[r] == Sent(L, x, Shift(n, s, 0), r)
      modifies mem[r]
      ensures Holds(ms[r := ReduceRound(L, add, x, Shift(n, s, 0))[r]])
    {
      hide Offset, Sent, AddInto, RecvIndex, Wrap, ReduceRound, Shift, MaxChunk, Layout.ChunkLen, ChunkBase, ChunkRem;
      RecvChunk(L, r, s, 0);
      var recv := RecvIndex(n, r, s, 0);
      ChunkInRange(L, recv);
      ReduceRoundAt(L, add, x, Shift(n, s, 0), r);
      AddChunk(add, r, 4 * (off + cs[recv]), cs[recv + 1] - cs[recv]);
    }

    /** dst[j] += inbox[j] on one rank. */
    method AddChunk(add: Adder, r: nat, dst: nat, k: nat)
      requires Valid() && r < n && dst + 4 * k <= bufBytes && 4 * k <= scratchBytes
      modifies mem[r]
      ensures mem[r][..] == AddInto(add, old(mem[r][..]), dst, bufBytes, k)
    {
      hide Blit;
      ghost var m := mem[r][..];
      for j := 0 to k
        invariant mem[r][..] == AddInto(add, m, dst, bufBytes, j)
      {
        var sum := add(mem[r][dst + 4 * j..dst + 4 * j + 4], mem[r][bufBytes + 4 * j..bufBytes + 4 * j + 4]);
        ghost var p := mem[r][..];
        assert F32At(p, dst + 4 * j) == mem[r][dst + 4 * j..dst + 4 * j + 4];
        assert F32At(p, bufBytes + 4 * j) == mem[r][bufBytes + 4 * j..bufBytes + 4 * j + 4];
        Put(mem[r], dst + 4 * j, sum);
      }
    }

    /** The copying half of a gather round. */
    method CopyRound(ghost L: Layout, off: nat, cs: seq<nat>, s: nat, ghost x: seq<seq<Byte>>)
      requires Valid() && Planned(L, off, cs) && s < n - 1 && L.Fits(x)
      requires Shift(n, s, 1) <= n && Holds(SentAll(L, x, Shift(n, s, 1)))
      modifies mem
      ensures Holds(GatherRound(L, x, Shift(n, s, 1)))
    {
      hide Offset, SentAll, Blit, RecvIndex, Wrap, GatherRound, Shift, MaxChunk, Layout.ChunkLen, ChunkBase, ChunkRem;
      ghost var t := Shift(n, s, 1);
      ghost var sent, after := SentAll(L, x, t), GatherRound(L, x, t);
      ghost var ms := sent;
      for r := 0 to n
        invariant Holds(ms) && forall q :: 0 <= q < n ==> ms[q] == if q < r then after[q] else sent[q]
      {
        CopyOne(L, off, cs, s, r, x, ms);
        ms := ms[r := after[r]];
      }
      assert ms == after;
    }

    method CopyOne(ghost L: Layout, off: nat, cs: seq<nat>, s: nat, r: nat,
                   ghost x: seq<seq<Byte>>, ghost ms: seq<seq<Byte>>)
      requires Valid() && Planned(L, off, cs) && s < n - 1 && L.Fits(x) && r < n && Shift(n, s, 1) <= n && Holds(ms)
      requires ms[r] == Sent(L, x, Shift(n, s, 1), r)
      modifies mem[r]
      ensures Holds(ms[r := GatherRound(L, x, Shift(n, s, 1))[r]])
    {
      hide Offset, Sent, Blit, RecvIndex, Wrap, GatherRound, Shift, MaxChunk, Layout.ChunkLen, ChunkBase, ChunkRem;
      RecvChunk(L, r, s, 1);
      var recv := RecvIndex(n, r, s, 1);
      ChunkInRange(L, recv);
      GatherRoundAt(L, x, Shift(n, s, 1), r);
      var len := 4 * (cs[recv + 1] - cs[recv]);
      Move(mem[r], 4 * (off + cs[recv]), mem[r], bufBytes, len);
    }

    /**
      All-reduce. On success every rank holds `AllReduced` of the initial memories, whose
      meaning `AllReduceFolds`, `AllReduceKeeps`, `RanksAgree` and `AllReduceSums` state, and the
      fabric has carried each element 2(n - 1) times. A refused call moves nothing.
     */
    method AllReduceSum(add: Adder, off: nat, count: nat) returns (rc: int)
      requires Valid() && RangeExact(off, count, bufBytes)
      modifies fabric, mem
      ensures Valid()
      ensures rc == if count == 0 then 0
                    else if 4 * (off + count) > bufBytes then -2
                    else if n == 1 then 0
                    else if 4 * MaxChunk(count, n) > scratchBytes then -2 else 0
      ensures rc != 0 || count == 0 || n == 1 ==> Mems() == old(Mems()) && fabric.dmaBytes == old(fabric.dmaBytes)
      ensures rc == 0 && count > 0 && n > 1 ==>
                var L := Layout(n, bufBytes, scratchBytes, off, count);
                && L.Valid() && L.Fits(old(Mems())) && Mems() == AllReduced(L, add, old(Mems()))
                && fabric.dmaBytes == Plus(old(fabric.dmaBytes), Times(2 * (n - 1), 4 * count))
    {
      if count == 0 {
        return 0;
      }
      RangeTestIff(off, count, bufBytes);
      if ByteEnd(off, count) > bufBytes {
        return -2;
      }
      if n == 1 {
        return 0;
      }
      if 4 * MaxChunk(count, n) > scratchBytes {
        return -2;
      }
      rc := 0;
      RunRounds(add, off, count, LayoutFor(off, count), Mems());
    }

    method RunRounds(add: Adder, off: nat, count: nat, ghost L: Layout, ghost x: seq<seq<Byte>>)
      requires Valid() && L == LayoutFor(off, count) && L.Valid() && 2 <= n && L.Fits(x) && Holds(x)
      modifies fabric, mem
      ensures fabric.nodes == old(fabric.nodes) && Holds(AllReduced(L, add, x))
      ensures fabric.dmaBytes == Plus(old(fabric.dmaBytes), Times(2 * (n - 1), 4 * count))
    {
      hide Offset, ReduceRounds, GatherRounds, MaxChunk, Wired, Plus, Times;
      WiredShape(fabric.nodes);
      var cs := ChunkOffsets(n, count);
      var offsets := cs[..];
      ReduceHalf(add, off, offsets, L, x);
      GatherHalf(off, offsets, L, ReduceRounds(L, add, x, n - 1));
      PlusAssociates(old(fabric.dmaBytes), Times(n - 1, 4 * count), Times(n - 1, 4 * count));
      TimesLaws(n - 1, 4 * count);
    }

    lemma PlannedShape(L: Layout, off: nat, cs: seq<nat>)
      requires Planned(L, off, cs)
      ensures L.Valid() && 2 <= n && L.n == n
    {
    }

    lemma WiredShape(nodes: seq<Node>)
      requires Wired(nodes)
      ensures 1 <= n && |mem| == n
    {
    }

    method ReduceHalf(add: Adder, off: nat, cs: seq<nat>, ghost L: Layout, ghost x: seq<seq<Byte>>)
      requires Valid() && Planned(L, off, cs) && L.Fits(x) && Holds(x)
      modifies fabric, mem
      ensures fabric.nodes == old(fabric.nodes) && Holds(ReduceRounds(L, add, x, n - 1))
      ensures fabric.dmaBytes == Plus(old(fabric.dmaBytes), Times(n - 1, 4 * L.count))
    {
      hide Offset, ReduceRound, ReduceRounds, SentAll, MaxChunk, Wired, Holds, Shift, Plus, Times;
      WiredShape(fabric.nodes);
      RoundSteps(L, add, x, 0);
      TimesLaws(0, 4 * L.count);
      PlusNothing(fabric.dmaBytes);
      for s := 0 to n - 1
        invariant fabric.nodes == old(fabric.nodes) && Holds(ReduceRounds(L, add, x, s))
        invariant fabric.dmaBytes == Plus(old(fabric.dmaBytes), Times(s, 4 * L.count))
      {
        ghost var ms := ReduceRounds(L, add, x, s);
        RoundSteps(L, add, x, s);
        SendRound(L, off, cs, s, 0, ms);
        AddRound(L, add, off, cs, s, ms);
        PlusAssociates(old(fabric.dmaBytes), Times(s, 4 * L.count), 4 * L.count);
        TimesLaws(s, 4 * L.count);
      }
    }

    method GatherHalf(off: nat, cs: seq<nat>, ghost L: Layout, ghost x: seq<seq<Byte>>)
      requires Valid() && Planned(L, off, cs) && L.Fits(x) && Holds(x)
      modifies fabric, mem
      ensures fabric.nodes == old(fabric.nodes) && Holds(GatherRounds(L, x, n - 1))
      ensures fabric.dmaBytes == Plus(old(fabric.dmaBytes), Times(n - 1, 4 * L.count))
    {
      hide Offset, GatherRound, GatherRounds, SentAll, MaxChunk, Wired, Holds, Shift, Plus, Times;
      WiredShape(fabric.nodes);
      RoundSteps(L, (a, b) => a, x, 0);
      TimesLaws(0, 4 * L.count);
      PlusNothing(fabric.dmaBytes);
      for s := 0 to n - 1
        invariant fabric.nodes == old(fabric.nodes) && Holds(GatherRounds(L, x, s))
        invariant fabric.dmaBytes == Plus(old(fabric.dmaBytes), Times(s, 4 * L.count))
      {
        ghost var ms := GatherRounds(L, x, s);
        RoundSteps(L, (a, b) => a, x, s);
        SendRound(L, off, cs, s, 1, ms);
        CopyRound(L, off, cs, s, ms);
        PlusAssociates(old(fabric.dmaBytes), Times(s, 4 * L.count), 4 * L.count);
        TimesLaws(s, 4 * L.count);
      }
    }

    /** Broadcast: every rank's range becomes the root's. */
    method Broadcast(root: int, off: nat, count: nat) returns (rc: int)
      requires Valid() && RangeExact(off, count, bufBytes)
      modifies fabric, mem
      ensures Valid()
      ensures rc == if !(0 <= root < n) then -1 else if count == 0 then 0
                    else if 4 * (off + count) > bufBytes then -2 else 0
      ensures rc != 0 || count == 0 ==> Mems() == old(Mems())
      ensures rc == 0 && count > 0 ==> forall r :: 0 <= r < n ==>
                mem[r][..] == if r == root then old(Mems())[r]
                              else Blit(old(Mems())[r], 4 * off, old(Mems())[root][4 * off..4 * (off + count)])
      ensures rc == 0 && count > 0 ==> fabric.dmaBytes == Plus(old(fabric.dmaBytes), Times(n - 1, 4 * count))
    {
      hide Blit, Plus, Times, ByteEnd, RangeExact;
      if root < 0 || root >= n {
        return -1;
      }
      if count == 0 {
        return 0;
      }
      RangeTestIff(off, count, bufBytes);
      if ByteEnd(off, count) > bufBytes {
        return -2;
      }
      BroadcastAll(root, 4 * off, 4 * count, Mems());
      return 0;
    }

    method BroadcastAll(root: nat, at: nat, len: nat, ghost x: seq<seq<Byte>>)
      requires Valid() && root < n && 0 < len && at + len <= bufBytes && Holds(x)
      modifies fabric, mem
      ensures fabric.nodes == old(fabric.nodes)
      ensures forall r :: 0 <= r < n ==>
                mem[r][..] == if r == root then x[r] else Blit(x[r], at, x[root][at..at + len])
      ensures fabric.dmaBytes == Plus(old(fabric.dmaBytes), Times(n - 1, len))
    {
      hide Blit, Plus, Times;
      PlusNothing(fabric.dmaBytes);
      TimesLaws(0, len);
      ghost var src := x[root][at..at + len];
      ghost var k := 0;
      for r := 0 to n
        invariant fabric.nodes == old(fabric.nodes) && mem[root][..] == x[root]
        invariant forall q :: 0 <= q < n ==> mem[q][..] == if q < r && q != root then Blit(x[q], at, src) else x[q]
        invariant k == (if r > root then r - 1 else r) && fabric.dmaBytes == Plus(old(fabric.dmaBytes), Times(k, len))
      {
        if r != root {
          Transfer(root, at, r, at, len);
          PlusAssociates(old(fabric.dmaBytes), Times(k, len), len);
          TimesLaws(k, len);
          k := k + 1;
        }
      }
    }

    function PlanFor(inOff: nat, outOff: nat, count: nat): Plan {
      Plan(n, bufBytes, scratchBytes, 4 * inOff, 4 * outOff, 4 * count)
    }

    /** All-gather: every rank's input ends in its slot on every rank, and nothing else changes. */
    method AllGather(inOff: nat, outOff: nat, count: nat) returns (rc: int)
      requires Valid() && RangeExact(inOff, count, bufBytes)
      requires 4 * (inOff + count) <= bufBytes ==> RangeExact(outOff, n * count, bufBytes)
      modifies fabric, mem
      ensures Valid()
      ensures rc == if count == 0 then 0
                    else if 4 * (inOff + count) > bufBytes || 4 * (outOff + n * count) > bufBytes
                            || 4 * count > scratchBytes then -2 else 0
      ensures rc != 0 || count == 0 ==> Mems() == old(Mems())
      ensures rc == 0 && count > 0 ==>
                var P := Plan(n, bufBytes, scratchBytes, 4 * inOff, 4 * outOff, 4 * count);
                && P.Valid() && P.Fits(old(Mems()))
                && forall q :: 0 <= q < n ==> mem[q][..] == Gathered(P, old(Mems()), q, n)
      ensures rc == 0 && count > 0 ==> fabric.dmaBytes == Plus(old(fabric.dmaBytes), Times(Times(n, n), 4 * count))
    {
      hide ByteEnd, RangeExact, Plus, Times;
      if count == 0 {
        return 0;
      }
      RangeTestIff(inOff, count, bufBytes);
      if ByteEnd(inOff, count) > bufBytes {
        return -2;
      }
      var total := n * count;
      RangeTestIff(outOff, total, bufBytes);
      if ByteEnd(outOff, total) > bufBytes || 4 * count > scratchBytes {
        return -2;
      }
      ghost var P := PlanFor(inOff, outOff, count);
      assert P.Valid() by { assert n * (4 * count) == 4 * (n * count); }
      SnapshotInputs(P, 4 * inOff, 4 * count, Mems());
      ExchangeAll(P, 4 * outOff, 4 * count, old(Mems()));
      return 0;
    }

    method SnapshotInputs(ghost P: Plan, inAt: nat, len: nat, ghost x: seq<seq<Byte>>)
      requires Valid() && P == Plan(n, bufBytes, scratchBytes, inAt, P.outAt, len) && P.Valid()
      requires inAt + len <= bufBytes && len <= scratchBytes
      requires P.Fits(x) && Holds(x)
      modifies mem
      ensures forall q :: 0 <= q < n ==> mem[q][..] == Gathered(P, x, q, 0)
    {
      hide Blit, Gathered, Plan.Valid;
      for r := 0 to n
        invariant forall q :: 0 <= q < n ==> mem[q][..] == if q < r then Gathered(P, x, q, 0) else x[q]
      {
        GatheredStart(P, x, r);
        Move(mem[r], bufBytes, mem[r], inAt, len);
      }
    }

    method ExchangeAll(ghost P: Plan, outAt: nat, len: nat, ghost x: seq<seq<Byte>>)
      requires Valid() && P == Plan(n, bufBytes, scratchBytes, P.inAt, outAt, len) && P.Valid() && 0 < len
      requires P.Fits(x) && forall q :: 0 <= q < n ==> mem[q][..] == Gathered(P, x, q, 0)
      modifies fabric, mem
      ensures fabric.nodes == old(fabric.nodes)
      ensures forall q :: 0 <= q < n ==> mem[q][..] == Gathered(P, x, q, n)
      ensures fabric.dmaBytes == Plus(old(fabric.dmaBytes), Times(Times(n, n), len))
    {
      hide Blit, Gathered, Plan.Valid, Plus, Times;
      PlusNothing(fabric.dmaBytes);
      TimesLaws(0, n);
      TimesLaws(0, len);
      for src := 0 to n
        invariant fabric.nodes == old(fabric.nodes)
        invariant fabric.dmaBytes == Plus(old(fabric.dmaBytes), Times(Times(src, n), len))
        invariant forall q :: 0 <= q < n ==> mem[q][..] == Gathered(P, x, q, src)
      {
        SendToAll(P, src, outAt + src * len, len, x);
        PlusAssociates(old(fabric.dmaBytes), Times(Times(src, n), len), Times(n, len));
        TimesLaws(src, n);
        TimesAdds(Times(src, n), n, len);
      }
    }

    /** One source's contribution goes to every rank, its own included. */
    method SendToAll(ghost P: Plan, src: nat, at: nat, len: nat, ghost x: seq<seq<Byte>>)
      requires Valid() && P == Plan(n, bufBytes, scratchBytes, P.inAt, P.outAt, len) && P.Valid() && 0 < len
      requires src < n && at == P.Slot(src)
      requires P.Fits(x) && forall q :: 0 <= q < n ==> mem[q][..] == Gathered(P, x, q, src)
      modifies fabric, mem
      ensures fabric.nodes == old(fabric.nodes)
      ensures forall q :: 0 <= q < n ==> mem[q][..] == Gathered(P, x, q, src + 1)
      ensures fabric.dmaBytes == Plus(old(fabric.dmaBytes), Times(n, len))
    {
      hide Blit, Gathered, Contribution, Plan.Slot, Plan.Valid, Plus, Times;
      PlusNothing(fabric.dmaBytes);
      TimesLaws(0, len);
      SlotFits(P, src);
      for dst := 0 to n
        invariant fabric.nodes == old(fabric.nodes)
        invariant fabric.dmaBytes == Plus(old(fabric.dmaBytes), Times(dst, len))
        invariant forall q :: 0 <= q < n ==> mem[q][..] == Gathered(P, x, q, if q < dst then src + 1 else src)
      {
        InboxKept(P, x, src, if src < dst then src + 1 else src);
        GatheredStep(P, x, dst, src);
        Transfer(src, bufBytes, dst, at, len);
        PlusAssociates(old(fabric.dmaBytes), Times(dst, len), len);
        TimesLaws(dst, len);
      }
    }
  }


  function WindowOf(r: nat, size: nat, m: array<Byte>): Node
    requires size > 0
  {
    Node(r * STRIDE, r * STRIDE + size - 1, 20, m)
  }

  /** The windows are a stride apart, so a new one overlaps none of the earlier ones. */
  lemma WindowsApart(i: nat, r: nat, size: nat, m: array<Byte>)
    requires i < r < MAX_RANKS && 0 < size < STRIDE
    ensures !Overlap(Node(r * STRIDE, r * STRIDE + size - 1, 20, null), WindowOf(i, size, m))
  {
  }

  /**
    bvcomm_init: every registration and binding it makes succeeds. There is one fabric, and it is
    reset first, so that whatever was bound to it before no longer is.
   */
  method Init(fabric: FabricState, nranks: int, bufBytes: nat, scratchBytes: nat) returns (w: World?)
    requires bufBytes < TWO_64 && SizeExact(bufBytes, scratchBytes)
    ensures w == null <==> nranks < 1 || nranks > 64 || bufBytes == 0 || bufBytes + scratchBytes >= 0x1_0000_0000
    modifies fabric
    ensures w == null ==> fabric.nodes == old(fabric.nodes)
    ensures w != null ==> fresh(w) && w.fabric == fabric && w.Valid()
    ensures w != null ==> w.n == nranks && w.bufBytes == bufBytes && w.scratchBytes == scratchBytes
    ensures w != null ==> forall r :: 0 <= r < w.n ==> fresh(w.mem[r]) && forall i :: 0 <= i < w.mem[r].Length ==> w.mem[r][i] == 0
  {
    if nranks < 1 || nranks > MAX_RANKS || bufBytes == 0 || (bufBytes + scratchBytes) % TWO_64 >= STRIDE {
      return null;
    }
    var size := bufBytes + scratchBytes;
    fabric.Reset();
    var mem: seq<array<Byte>> := [];
    for r := 0 to nranks
      invariant |mem| == r
      invariant forall i :: 0 <= i < r ==> fresh(mem[i]) && mem[i].Length == size
      invariant forall i, j :: 0 <= i < r && 0 <= j < size ==> mem[i][j] == 0
      invariant forall i, j :: 0 <= i < j < r ==> mem[i] != mem[j]
      invariant |fabric.nodes| == r && forall i :: 0 <= i < r ==> fabric.nodes[i] == WindowOf(i, size, mem[i])
    {
      AddRank(fabric, r, size, mem);
      var m := new Byte[size](_ => 0);
      var bound := fabric.BindMemory(r, m);
      assert bound == Done(0);
      mem := mem + [m];
    }
    w := new World(nranks, bufBytes, scratchBytes, mem, fabric);
  }

  /** Two worlds that are both wired to one fabric have the same memories. */
  lemma OneWorldPerFabric(v: World, w: World)
    requires v.fabric == w.fabric && v.Valid() && w.Valid()
    ensures v.n == w.n && v.mem == w.mem
  {
    forall r | 0 <= r < v.n ensures v.mem[r] == w.mem[r] {
      assert v.fabric.nodes[r].mem == v.mem[r] && w.fabric.nodes[r].mem == w.mem[r];
    }
  }

  /** A later initialisation on the same fabric unbinds an earlier world. */
  method Reinitialise(v: World, nranks: int, bufBytes: nat, scratchBytes: nat) returns (w: World?)
    requires v.Valid() && bufBytes < TWO_64 && SizeExact(bufBytes, scratchBytes)
    modifies v.fabric
    ensures w != null ==> w.fabric == v.fabric && w.Valid() && !v.Valid()
    ensures w != null ==> forall p, q :: 0 <= p < v.n && 0 <= q < w.n ==> v.mem[p] != w.mem[q]
    ensures w == null ==> v.Valid()
  {
    w := Init(v.fabric, nranks, bufBytes, scratchBytes);
    if w != null {
      assert w.mem[0] != v.mem[0];
      if v.Valid() { OneWorldPerFabric(v, w); }
    }
  }

  /** Windows are placed by rank alone. */
  lemma SameBase(v: World, w: World, r: nat)
    ensures v.Base(r) == w.Base(r)
  {
  }

  /** The transfers of an earlier world then move bytes between the later world's memories. */
  method TransferOfEarlier(v: World, w: World, src: nat, from: nat, dst: nat, at: nat, len: nat)
    requires v.fabric == w.fabric && w.Valid() && src < w.n && dst < w.n && 0 < len
    requires from + len <= w.bufBytes + w.scratchBytes && at + len <= w.bufBytes + w.scratchBytes
    modifies v.fabric, w.mem[dst]
    ensures w.mem[dst][..] == Blit(old(w.mem[dst][..]), at, old(w.mem[src][..])[from..from + len])
  {
    hide World.Wired, World.Base, RegionValid, Translates, Fabric.InMemory, Blit;
    SameBase(v, w, src);
    SameBase(v, w, dst);
    w.RankPasses(v.fabric.nodes, src, from, len);
    w.RankPasses(v.fabric.nodes, dst, at, len);
    var rc := v.fabric.Dma(Channel(src, dst, true), v.Base(src) + from, v.Base(dst) + at, len);
  }

  method AddRank(fabric: FabricState, r: nat, size: nat, ghost mem: seq<array<Byte>>)
    requires r < MAX_RANKS && 0 < size < STRIDE && |mem| == r
    requires |fabric.nodes| == r && forall i :: 0 <= i < r ==> fabric.nodes[i] == WindowOf(i, size, mem[i])
    modifies fabric`nodes
    ensures fabric.nodes == old(fabric.nodes) + [Node(r * STRIDE, r * STRIDE + size - 1, 20, null)]
  {
    forall i | 0 <= i < r
      ensures !Overlap(Node(r * STRIDE, r * STRIDE + size - 1, 20, null), fabric.nodes[i])
    {
      WindowsApart(i, r, size, mem[i]);
    }
    var registered := fabric.RegisterNode(r * STRIDE, r * STRIDE + size - 1, 20);
    assert registered == Done(r);
  }

  lemma GatheredStart(P: Plan, x: seq<seq<Byte>>, q: nat)
    requires P.Valid() && P.Fits(x) && q < P.n
    ensures Gathered(P, x, q, 0) == Blit(x[q], P.buf, x[q][P.inAt..P.inAt + P.len])
  {
  }

  lemma GatheredStep(P: Plan, x: seq<seq<Byte>>, q: nat, src: nat)
    requires P.Valid() && P.Fits(x) && q < P.n && src < P.n
    ensures P.Slot(src) + P.len <= P.buf
    ensures Gathered(P, x, q, src + 1) == Blit(Gathered(P, x, q, src), P.Slot(src), Contribution(P, x, src))
  {
    hide Blit, Contribution, Plan.Slot;
    SlotInRange(P, src);
  }

  lemma BlitNothing(m: seq<Byte>, at: nat, src: seq<Byte>)
    requires at <= |m| && src == []
    ensures Blit(m, at, src) == m
  {
  }

  /** The bytes a rank sends are the same before and after its own inbox has been written. */
  lemma SliceOfSent(L: Layout, x: seq<seq<Byte>>, t: nat, r: nat, lo: nat, len: nat, m: seq<Byte>)
    requires L.Valid() && L.Fits(x) && t <= L.n && r < L.n && lo + len <= L.buf
    requires m == x[r] || m == Sent(L, x, t, r)
    ensures m[lo..lo + len] == x[r][lo..lo + len]
  {
    hide Sent;
    forall i | lo <= i < lo + len ensures m[i] == x[r][i] {
      SentUserByte(L, x, t, r, i);
    }
  }

  method Put(a: array<Byte>, at: nat, v: F32)
    requires at + 4 <= a.Length
    modifies a
    ensures a[..] == Blit(old(a[..]), at, v)
  {
    a[at], a[at + 1], a[at + 2], a[at + 3] := v[0], v[1], v[2], v[3];
  }
}
