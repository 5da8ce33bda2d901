/**
  The ring collectives on the ranks' memories as values: chunk layout, one round of sends,
  one round of combining or copying, and the fold that a chunk's partial sums follow.
 */
module RingSpec {
  import opened Bits

  /** A single-precision number as it lies in memory. */
  type F32 = s: seq<Byte> | |s| == 4 witness [0, 0, 0, 0]

  type Adder = (F32, F32) -> F32

  function F32At(m: seq<Byte>, a: nat): F32
    requires a + 4 <= |m|
  {
    m[a..a + 4]
  }

  /** dst[j] += inbox[j] for j below k, one element after the other. */
  function AddInto(add: Adder, m: seq<Byte>, dst: nat, inbox: nat, k: nat): (r: seq<Byte>)
    requires dst + 4 * k <= |m| && inbox + 4 * k <= |m|
    ensures |r| == |m|
  {
    if k == 0 then m
    else
      var p := AddInto(add, m, dst, inbox, k - 1);
      var j := 4 * (k - 1);
      Blit(p, dst + j, add(F32At(p, dst + j), F32At(p, inbox + j)))
  }

  // ---------- Chunks ----------

  /** Every chunk has at least this many elements ... */
  function ChunkBase(count: nat, n: nat): nat
    requires n > 0
  {
    count / n
  }

  /** ... and this many chunks have one more. */
  function ChunkRem(count: nat, n: nat): nat
    requires n > 0
  {
    count % n
  }

  /** Where chunk i begins when count elements are split over n ranks. */
  function Offset(count: nat, n: nat, i: nat): nat
    requires n > 0
  {
    if i == 0 then 0
    else Offset(count, n, i - 1) + ChunkBase(count, n) + if i - 1 < ChunkRem(count, n) then 1 else 0
  }

  /** The length of the longest chunk. */
  function MaxChunk(count: nat, n: nat): nat
    requires n > 0
  {
    ChunkBase(count, n) + if ChunkRem(count, n) > 0 then 1 else 0
  }

  /** x modulo n for x below 2n. */
  function Wrap(x: nat, n: nat): nat
    requires x < 2 * n
  {
    if x < n then x else x - n
  }

  /** A world of n ranks, each with buf user bytes and an inbox behind them, and the range to reduce. */
  datatype Layout = Layout(n: nat, buf: nat, scratch: nat, off: nat, count: nat) {
    predicate Valid() {
      1 <= n && 4 * (off + count) <= buf && 4 * MaxChunk(count, n) <= scratch
    }

    function Begin(i: nat): nat
      requires n > 0
    {
      Offset(count, n, i)
    }

    function ChunkLen(i: nat): nat
      requires n > 0
    {
      ChunkBase(count, n) + if i < ChunkRem(count, n) then 1 else 0
    }

    /** The byte address of element e of the range. */
    function Addr(e: nat): nat { 4 * (off + e) }

    predicate Fits(ms: seq<seq<Byte>>) {
      |ms| == n && forall r :: 0 <= r < n ==> |ms[r]| == buf + scratch
    }

    function Prev(q: nat): nat
      requires q < n
    {
      if q == 0 then n - 1 else q - 1
    }

    function Next(q: nat): nat
      requires q < n
    {
      if q + 1 == n then 0 else q + 1
    }

    /** How far rank q is from rank c along the ring. */
    function Dist(c: nat, q: nat): nat
      requires c < n && q < n
    {
      if q >= c then q - c else q - c + n
    }
  }

  /** Chunk i lies inside the range and fits in the inbox. */
  lemma ChunkInRange(L: Layout, i: nat)
    requires L.Valid() && i < L.n
    ensures L.Begin(i + 1) == L.Begin(i) + L.ChunkLen(i) <= L.count && 4 * L.ChunkLen(i) <= L.scratch
  {
    var base, rem := L.count / L.n, L.count % L.n;
    OffsetClosed(L.count, L.n, i + 1);
    MulLe(i + 1, L.n, base);
    DivMod(L.count, L.n);
    var taken := if i + 1 < rem then i + 1 else rem;
    assert L.Begin(i + 1) == (i + 1) * base + taken;
  }

  lemma DivMod(a: nat, n: nat)
    requires n > 0
    ensures n * (a / n) + a % n == a && 0 <= a % n < n
  {
  }

  lemma {:induction false} OffsetClosed(count: nat, n: nat, i: nat)
    requires n > 0
    ensures Offset(count, n, i) == i * (count / n) + if i < count % n then i else count % n
  {
    if i > 0 {
      OffsetClosed(count, n, i - 1);
      assert i * (count / n) == (i - 1) * (count / n) + count / n;
    }
  }

  lemma MulLe(a: int, b: int, c: nat)
    requires a <= b
    ensures a * c <= b * c
  {
  }

  /** The chunks end with the range. */
  lemma LastChunkEnds(L: Layout)
    requires L.Valid()
    ensures L.Begin(L.n) == L.count
  {
    OffsetClosed(L.count, L.n, L.n);
    DivMod(L.count, L.n);
  }

  /** Every rank r sends chunk (r + t) mod n to the inbox of the next rank. */
  ghost function Sent(L: Layout, ms: seq<seq<Byte>>, t: nat, q: nat): (m: seq<Byte>)
    requires L.Valid() && L.Fits(ms) && t <= L.n && q < L.n
    ensures |m| == L.buf + L.scratch
  {
    var p := L.Prev(q);
    var c := Wrap(p + t, L.n);
    ChunkInRange(L, c);
    Blit(ms[q], L.buf, ms[p][L.Addr(L.Begin(c))..L.Addr(L.Begin(c)) + 4 * L.ChunkLen(c)])
  }

  ghost function Added(L: Layout, add: Adder, ms: seq<seq<Byte>>, t: nat, q: nat): (m: seq<Byte>)
    requires L.Valid() && L.Fits(ms) && t <= L.n && q < L.n
    ensures |m| == L.buf + L.scratch
  {
    var c := Wrap(L.Prev(q) + t, L.n);
    ChunkInRange(L, c);
    AddInto(add, ms[q], L.Addr(L.Begin(c)), L.buf, L.ChunkLen(c))
  }

  ghost function Copied(L: Layout, ms: seq<seq<Byte>>, t: nat, q: nat): (m: seq<Byte>)
    requires L.Valid() && L.Fits(ms) && t <= L.n && q < L.n
    ensures |m| == L.buf + L.scratch
  {
    var c := Wrap(L.Prev(q) + t, L.n);
    ChunkInRange(L, c);
    Blit(ms[q], L.Addr(L.Begin(c)), ms[q][L.buf..L.buf + 4 * L.ChunkLen(c)])
  }

  /** The memories after the sends of a round; all reads are of bytes that no send of the round writes. */
  ghost function SentAll(L: Layout, ms: seq<seq<Byte>>, t: nat): (r: seq<seq<Byte>>)
    requires L.Valid() && L.Fits(ms) && t <= L.n
    ensures L.Fits(r) && forall q :: 0 <= q < L.n ==> r[q] == Sent(L, ms, t, q)
  {
    seq(L.n, q requires 0 <= q < L.n => Sent(L, ms, t, q))
  }

  /** One round on all ranks: sends, then sums; or sends, then copies. */
  ghost function ReduceRound(L: Layout, add: Adder, ms: seq<seq<Byte>>, t: nat): (r: seq<seq<Byte>>)
    requires L.Valid() && L.Fits(ms) && t <= L.n
    ensures L.Fits(r)
  {
    seq(L.n, q requires 0 <= q < L.n => Added(L, add, SentAll(L, ms, t), t, q))
  }

  ghost function GatherRound(L: Layout, ms: seq<seq<Byte>>, t: nat): (r: seq<seq<Byte>>)
    requires L.Valid() && L.Fits(ms) && t <= L.n
    ensures L.Fits(r)
  {
    seq(L.n, q requires 0 <= q < L.n => Copied(L, SentAll(L, ms, t), t, q))
  }

  /** The memories after the first s rounds of each half; a rank r sends chunk r - s, then r - s + 1. */
  ghost function ReduceRounds(L: Layout, add: Adder, x: seq<seq<Byte>>, s: nat): (r: seq<seq<Byte>>)
    requires L.Valid() && L.Fits(x) && s < L.n
    ensures L.Fits(r)
  {
    if s == 0 then x else ReduceRound(L, add, ReduceRounds(L, add, x, s - 1), L.n - (s - 1))
  }

  /** In round 0 of this half rank r sends chunk r + 1. */
  ghost function GatherRounds(L: Layout, x: seq<seq<Byte>>, s: nat): (r: seq<seq<Byte>>)
    requires L.Valid() && L.Fits(x) && s < L.n
    ensures L.Fits(r)
  {
    if s == 0 then x
    else GatherRound(L, GatherRounds(L, x, s - 1), if s == 1 then 1 else L.n - (s - 2))
  }

  // ---------- What the rounds compute ----------

  /** The value that rank r contributes to element e. */
  function Input(L: Layout, x: seq<seq<Byte>>, r: nat, e: nat): F32
    requires L.n > 0 && L.Fits(x) && r < L.n && e < L.count && 4 * (L.off + L.count) <= L.buf
  {
    F32At(x[r], L.Addr(e))
  }

  /** The fold of the contributions of ranks c, c + 1, ..., c + d around the ring. */
  function Fold(L: Layout, add: Adder, x: seq<seq<Byte>>, c: nat, d: nat, e: nat): F32
    requires L.n > 0 && L.Fits(x) && c < L.n && d < L.n && e < L.count && 4 * (L.off + L.count) <= L.buf
  {
    var own := Input(L, x, Wrap(c + d, L.n), e);
    if d == 0 then own else add(own, Fold(L, add, x, c, d - 1, e))
  }
}
