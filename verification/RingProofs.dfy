/** What the rounds of the ring leave on every rank. */
module RingProofs {
  import opened Bits
  import opened RingSpec

  // ---------- Bytes and words ----------

  lemma BlitAt(m: seq<Byte>, at: nat, src: seq<Byte>, i: nat)
    requires at + |src| <= |m| && i < |m|
    ensures Blit(m, at, src)[i] == if at <= i < at + |src| then src[i - at] else m[i]
  {
  }

  lemma BlitOutside(m: seq<Byte>, at: nat, src: seq<Byte>, a: nat)
    requires at + |src| <= |m| && a + 4 <= |m| && (a + 4 <= at || at + |src| <= a)
    ensures F32At(Blit(m, at, src), a) == F32At(m, a)
  {
    forall i | a <= i < a + 4 ensures Blit(m, at, src)[i] == m[i] { BlitAt(m, at, src, i); }
  }

  lemma BlitInside(m: seq<Byte>, at: nat, src: seq<Byte>, a: nat)
    requires at + |src| <= |m| && at <= a && a + 4 <= at + |src|
    ensures F32At(Blit(m, at, src), a) == F32At(src, a - at)
  {
    forall i | a <= i < a + 4 ensures Blit(m, at, src)[i] == src[i - at] { BlitAt(m, at, src, i); }
  }

  lemma WholeF32(s: F32)
    ensures F32At(s, 0) == s
  {
  }

  lemma SliceF32(m: seq<Byte>, lo: nat, hi: nat, a: nat)
    requires lo <= hi <= |m| && a + 4 <= hi - lo
    ensures F32At(m[lo..hi], a) == F32At(m, lo + a)
  {
    var part := m[lo..hi];
    assert forall i :: a <= i < a + 4 ==> part[i] == m[lo + i];
    assert part[a..a + 4] == m[lo + a..lo + a + 4];
  }

  /** Adding in place sums the words of the two regions and touches no byte outside the first. */
  lemma {:induction false} AddIntoBytes(add: Adder, m: seq<Byte>, dst: nat, inbox: nat, k: nat, i: nat)
    requires dst + 4 * k <= inbox && inbox + 4 * k <= |m| && i < |m| && !(dst <= i < dst + 4 * k)
    ensures AddInto(add, m, dst, inbox, k)[i] == m[i]
  {
    if k > 0 {
      AddIntoBytes(add, m, dst, inbox, k - 1, i);
    }
  }

  lemma {:induction false} AddIntoWord(add: Adder, m: seq<Byte>, dst: nat, inbox: nat, k: nat, j: nat)
    requires dst + 4 * k <= inbox && inbox + 4 * k <= |m| && j < k
    ensures F32At(AddInto(add, m, dst, inbox, k), dst + 4 * j)
            == add(F32At(m, dst + 4 * j), F32At(m, inbox + 4 * j))
  {
    hide F32At, Blit;
    var p := AddInto(add, m, dst, inbox, k - 1);
    var at := 4 * (k - 1);
    var sum := add(F32At(p, dst + at), F32At(p, inbox + at));
    if j < k - 1 {
      AddIntoWord(add, m, dst, inbox, k - 1, j);
      BlitOutside(p, dst + at, sum, dst + 4 * j);
    } else {
      AddIntoSame(add, m, dst, inbox, k - 1, dst + at);
      AddIntoSame(add, m, dst, inbox, k - 1, inbox + at);
      BlitInside(p, dst + at, sum, dst + at);
      WholeF32(sum);
    }
  }

  lemma AddIntoSame(add: Adder, m: seq<Byte>, dst: nat, inbox: nat, k: nat, a: nat)
    requires dst + 4 * k <= inbox && inbox + 4 * k <= |m| && a + 4 <= |m|
    requires a + 4 <= dst || dst + 4 * k <= a
    ensures F32At(AddInto(add, m, dst, inbox, k), a) == F32At(m, a)
  {
    forall i | a <= i < a + 4 ensures AddInto(add, m, dst, inbox, k)[i] == m[i] {
      AddIntoBytes(add, m, dst, inbox, k, i);
    }
  }

  // ---------- Chunks ----------

  predicate InChunk(L: Layout, c: nat, e: nat)
    requires L.n > 0
  {
    L.Begin(c) <= e < L.Begin(c) + L.ChunkLen(c)
  }

  lemma {:induction false} BeginMonotone(L: Layout, a: nat, b: nat)
    requires L.n > 0 && a <= b
    ensures L.Begin(a) <= L.Begin(b)
    decreases b - a
  {
    if a < b { BeginMonotone(L, a, b - 1); }
  }

  lemma ChunksDisjoint(L: Layout, c: nat, d: nat, e: nat)
    requires L.Valid() && c < L.n && d < L.n && InChunk(L, c, e) && InChunk(L, d, e)
    ensures c == d
  {
    ChunkInRange(L, c);
    ChunkInRange(L, d);
    if c < d { BeginMonotone(L, c + 1, d); }
    if d < c { BeginMonotone(L, d + 1, c); }
  }

  /** Every element of the range belongs to a chunk. */
  lemma FindChunk(L: Layout, e: nat) returns (c: nat)
    requires L.Valid() && e < L.count
    ensures c < L.n && InChunk(L, c, e)
  {
    LastChunkEnds(L);
    c := 0;
    while L.Begin(c + 1) <= e
      invariant c < L.n && L.Begin(c) <= e
      decreases L.n - c
    {
      if c + 1 == L.n { assert false; }
      c := c + 1;
    }
    ChunkInRange(L, c);
  }

  // ---------- One round ----------

  /** After the sends user bytes are as before ... */
  lemma SentUser(L: Layout, ms: seq<seq<Byte>>, t: nat, q: nat, a: nat)
    requires L.Valid() && L.Fits(ms) && t <= L.n && q < L.n && a + 4 <= L.buf
    ensures F32At(Sent(L, ms, t, q), a) == F32At(ms[q], a)
  {
    hide Offset, F32At;
    SentIsBlit(L, ms, t, q);
    var p, c := L.Prev(q), Wrap(L.Prev(q) + t, L.n);
    BlitOutside(ms[q], L.buf, ms[p][L.Addr(L.Begin(c))..L.Addr(L.Begin(c)) + 4 * L.ChunkLen(c)], a);
  }

  lemma SentUserByte(L: Layout, ms: seq<seq<Byte>>, t: nat, q: nat, i: nat)
    requires L.Valid() && L.Fits(ms) && t <= L.n && q < L.n && i < L.buf
    ensures Sent(L, ms, t, q)[i] == ms[q][i]
  {
    hide Offset;
    SentIsBlit(L, ms, t, q);
    var p, c := L.Prev(q), Wrap(L.Prev(q) + t, L.n);
    BlitAt(ms[q], L.buf, ms[p][L.Addr(L.Begin(c))..L.Addr(L.Begin(c)) + 4 * L.ChunkLen(c)], i);
  }

  lemma SentIsBlit(L: Layout, ms: seq<seq<Byte>>, t: nat, q: nat)
    requires L.Valid() && L.Fits(ms) && t <= L.n && q < L.n
    ensures var c := Wrap(L.Prev(q) + t, L.n);
            var lo, len := L.Addr(L.Begin(c)), 4 * L.ChunkLen(c);
            && L.Begin(c) + L.ChunkLen(c) <= L.count && len <= L.scratch
            && Sent(L, ms, t, q) == Blit(ms[q], L.buf, ms[L.Prev(q)][lo..lo + len])
  {
    hide Offset, Blit;
    ChunkInRange(L, Wrap(L.Prev(q) + t, L.n));
  }

  /** ... and the inbox holds the previous rank's chunk. */
  lemma SentInbox(L: Layout, ms: seq<seq<Byte>>, t: nat, q: nat, j: nat)
    requires L.Valid() && L.Fits(ms) && t <= L.n && q < L.n
    requires j < L.ChunkLen(Wrap(L.Prev(q) + t, L.n))
    ensures var c := Wrap(L.Prev(q) + t, L.n);
            && L.buf + 4 * j + 4 <= L.buf + L.scratch && L.Begin(c) + j < L.count
            && F32At(Sent(L, ms, t, q), L.buf + 4 * j) == F32At(ms[L.Prev(q)], L.Addr(L.Begin(c) + j))
  {
    hide Offset, F32At, Blit, Sent;
    SentIsBlit(L, ms, t, q);
    var p, c := L.Prev(q), Wrap(L.Prev(q) + t, L.n);
    var lo, len := L.Addr(L.Begin(c)), 4 * L.ChunkLen(c);
    BlitInside(ms[q], L.buf, ms[p][lo..lo + len], L.buf + 4 * j);
    SliceF32(ms[p], lo, lo + len, 4 * j);
  }

  /** One reduce round on rank q: the received chunk is summed, everything else stays. */
  lemma ReduceRoundEffect(L: Layout, add: Adder, ms: seq<seq<Byte>>, t: nat, q: nat, e: nat)
    requires L.Valid() && L.Fits(ms) && t <= L.n && q < L.n && e < L.count
    ensures F32At(ReduceRound(L, add, ms, t)[q], L.Addr(e)) ==
            if InChunk(L, Wrap(L.Prev(q) + t, L.n), e)
            then add(F32At(ms[q], L.Addr(e)), F32At(ms[L.Prev(q)], L.Addr(e)))
            else F32At(ms[q], L.Addr(e))
  {
    hide Offset, AddInto, Sent, ReduceRound, F32At;
    var c := Wrap(L.Prev(q) + t, L.n);
    var m := Sent(L, ms, t, q);
    var dst := L.Addr(L.Begin(c));
    ChunkInRange(L, c);
    SentUser(L, ms, t, q, L.Addr(e));
    ReduceRoundAt(L, add, ms, t, q);
    if InChunk(L, c, e) {
      SentInbox(L, ms, t, q, e - L.Begin(c));
      AddIntoWord(add, m, dst, L.buf, L.ChunkLen(c), e - L.Begin(c));
    } else {
      AddIntoSame(add, m, dst, L.buf, L.ChunkLen(c), L.Addr(e));
    }
  }

  lemma ReduceRoundAt(L: Layout, add: Adder, ms: seq<seq<Byte>>, t: nat, q: nat)
    requires L.Valid() && L.Fits(ms) && t <= L.n && q < L.n
    ensures var c := Wrap(L.Prev(q) + t, L.n);
            && L.Addr(L.Begin(c)) + 4 * L.ChunkLen(c) <= L.buf && L.buf + 4 * L.ChunkLen(c) <= L.buf + L.scratch
            && ReduceRound(L, add, ms, t)[q]
               == AddInto(add, Sent(L, ms, t, q), L.Addr(L.Begin(c)), L.buf, L.ChunkLen(c))
  {
    ChunkInRange(L, Wrap(L.Prev(q) + t, L.n));
  }

  lemma GatherRoundAt(L: Layout, ms: seq<seq<Byte>>, t: nat, q: nat)
    requires L.Valid() && L.Fits(ms) && t <= L.n && q < L.n
    ensures var c := Wrap(L.Prev(q) + t, L.n);
            && L.Addr(L.Begin(c)) + 4 * L.ChunkLen(c) <= L.buf && L.buf + 4 * L.ChunkLen(c) <= L.buf + L.scratch
            && GatherRound(L, ms, t)[q]
               == Blit(Sent(L, ms, t, q), L.Addr(L.Begin(c)), Sent(L, ms, t, q)[L.buf..L.buf + 4 * L.ChunkLen(c)])
  {
    ChunkInRange(L, Wrap(L.Prev(q) + t, L.n));
  }

  /** One gather round on rank q: the received chunk is copied, everything else stays. */
  lemma GatherRoundEffect(L: Layout, ms: seq<seq<Byte>>, t: nat, q: nat, e: nat)
    requires L.Valid() && L.Fits(ms) && t <= L.n && q < L.n && e < L.count
    ensures F32At(GatherRound(L, ms, t)[q], L.Addr(e)) ==
            F32At(ms[if InChunk(L, Wrap(L.Prev(q) + t, L.n), e) then L.Prev(q) else q], L.Addr(e))
  {
    hide Offset, Blit, Sent, GatherRound, F32At;
    var c := Wrap(L.Prev(q) + t, L.n);
    var m, len := Sent(L, ms, t, q), 4 * L.ChunkLen(c);
    var dst := L.Addr(L.Begin(c));
    ChunkInRange(L, c);
    SentUser(L, ms, t, q, L.Addr(e));
    GatherRoundAt(L, ms, t, q);
    if InChunk(L, c, e) {
      SentInbox(L, ms, t, q, e - L.Begin(c));
      BlitInside(m, dst, m[L.buf..L.buf + len], L.Addr(e));
      SliceF32(m, L.buf, L.buf + len, L.Addr(e) - dst);
    } else {
      BlitOutside(m, dst, m[L.buf..L.buf + len], L.Addr(e));
    }
  }

  /** A user byte outside the range survives a round. */
  lemma RoundsKeepOutside(L: Layout, add: Adder, ms: seq<seq<Byte>>, t: nat, q: nat, i: nat)
    requires L.Valid() && L.Fits(ms) && t <= L.n && q < L.n
    requires i < L.buf && !(L.Addr(0) <= i < L.Addr(L.count))
    ensures ReduceRound(L, add, ms, t)[q][i] == ms[q][i] && GatherRound(L, ms, t)[q][i] == ms[q][i]
  {
    hide Offset, AddInto, Sent, ReduceRound, GatherRound;
    var c := Wrap(L.Prev(q) + t, L.n);
    ChunkInRange(L, c);
    SentUserByte(L, ms, t, q, i);
    ReduceRoundAt(L, add, ms, t, q);
    GatherRoundAt(L, ms, t, q);
    AddIntoBytes(add, Sent(L, ms, t, q), L.Addr(L.Begin(c)), L.buf, L.ChunkLen(c), i);
  }

  // ---------- All rounds ----------

  /** In reduce round s - 1, rank q receives chunk c exactly when q is s ranks past c. */
  lemma ReduceChunk(L: Layout, c: nat, q: nat, s: nat)
    requires c < L.n && q < L.n && 1 <= s < L.n
    ensures Wrap(L.Prev(q) + (L.n - (s - 1)), L.n) == c <==> L.Dist(c, q) == s
    ensures L.Dist(c, q) == s ==> L.Dist(c, L.Prev(q)) == s - 1 && Wrap(c + s, L.n) == q
  {
  }

  /** In gather round s - 1, rank q receives chunk c exactly when q is s - 1 ranks past c. */
  lemma GatherChunk(L: Layout, c: nat, q: nat, s: nat)
    requires c < L.n && q < L.n && 1 <= s < L.n
    ensures Wrap(L.Prev(q) + (if s == 1 then 1 else L.n - (s - 2)), L.n) == c <==> L.Dist(c, q) == s - 1
    ensures L.Dist(c, q) == s - 1 ==> L.Dist(c, L.Prev(q)) == if s == 1 then L.n - 1 else s - 2
  {
  }

  lemma ReduceReceives(L: Layout, c: nat, q: nat, s: nat, e: nat)
    requires L.Valid() && c < L.n && q < L.n && 1 <= s < L.n && InChunk(L, c, e)
    ensures InChunk(L, Wrap(L.Prev(q) + (L.n - (s - 1)), L.n), e) <==> L.Dist(c, q) == s
    ensures L.Dist(c, q) == s ==> L.Dist(c, L.Prev(q)) == s - 1 && Wrap(c + s, L.n) == q
  {
    hide InChunk;
    ReduceChunk(L, c, q, s);
    var d := Wrap(L.Prev(q) + (L.n - (s - 1)), L.n);
    if InChunk(L, d, e) { ChunksDisjoint(L, c, d, e); }
  }

  lemma GatherReceives(L: Layout, c: nat, q: nat, s: nat, e: nat)
    requires L.Valid() && c < L.n && q < L.n && 1 <= s < L.n && InChunk(L, c, e)
    ensures InChunk(L, Wrap(L.Prev(q) + (if s == 1 then 1 else L.n - (s - 2)), L.n), e) <==> L.Dist(c, q) == s - 1
    ensures L.Dist(c, q) == s - 1 ==> L.Dist(c, L.Prev(q)) == if s == 1 then L.n - 1 else s - 2
  {
    hide InChunk;
    GatherChunk(L, c, q, s);
    var d := Wrap(L.Prev(q) + (if s == 1 then 1 else L.n - (s - 2)), L.n);
    if InChunk(L, d, e) { ChunksDisjoint(L, c, d, e); }
  }

  lemma FoldStep(L: Layout, add: Adder, x: seq<seq<Byte>>, c: nat, d: nat, e: nat)
    requires L.Valid() && L.Fits(x) && c < L.n && d < L.n && e < L.count
    ensures var own := Input(L, x, Wrap(c + d, L.n), e);
            Fold(L, add, x, c, d, e) == if d == 0 then own else add(own, Fold(L, add, x, c, d - 1, e))
    ensures d == 0 ==> Wrap(c + d, L.n) == c
  {
  }

  /** After s reduce rounds, the first s ranks past c have folded their contributions into chunk c. */
  lemma {:induction false} ReduceRoundsValue(L: Layout, add: Adder, x: seq<seq<Byte>>, s: nat, q: nat, c: nat, e: nat)
    requires L.Valid() && L.Fits(x) && s < L.n && q < L.n && c < L.n && e < L.count && InChunk(L, c, e)
    ensures F32At(ReduceRounds(L, add, x, s)[q], L.Addr(e)) ==
            if L.Dist(c, q) <= s then Fold(L, add, x, c, L.Dist(c, q), e) else Input(L, x, q, e)
  {
    hide ReduceRound, F32At, InChunk, Fold, Wrap;
    FoldStep(L, add, x, c, L.Dist(c, q), e);
    if s > 0 {
      var ms, t := ReduceRounds(L, add, x, s - 1), L.n - (s - 1);
      ReduceRoundsValue(L, add, x, s - 1, q, c, e);
      ReduceRoundsValue(L, add, x, s - 1, L.Prev(q), c, e);
      ReduceRoundEffect(L, add, ms, t, q, e);
      ReduceReceives(L, c, q, s, e);
    }
  }

  /** After s gather rounds, the complete fold has reached s more ranks. */
  lemma {:induction false} GatherRoundsValue(L: Layout, x: seq<seq<Byte>>, s: nat, q: nat, c: nat, e: nat, full: F32)
    requires L.Valid() && L.Fits(x) && s < L.n && q < L.n && c < L.n && e < L.count && InChunk(L, c, e)
    requires F32At(x[Wrap(c + L.n - 1, L.n)], L.Addr(e)) == full
    ensures L.Dist(c, q) < s || L.Dist(c, q) == L.n - 1 ==> F32At(GatherRounds(L, x, s)[q], L.Addr(e)) == full
  {
    hide GatherRound, F32At, InChunk;
    if s > 0 {
      var ms, t := GatherRounds(L, x, s - 1), if s == 1 then 1 else L.n - (s - 2);
      GatherRoundsValue(L, x, s - 1, q, c, e, full);
      GatherRoundsValue(L, x, s - 1, L.Prev(q), c, e, full);
      GatherRoundEffect(L, ms, t, q, e);
      GatherReceives(L, c, q, s, e);
    }
  }

  lemma {:induction false} RoundsOutside(L: Layout, add: Adder, x: seq<seq<Byte>>, s: nat, q: nat, i: nat)
    requires L.Valid() && L.Fits(x) && s < L.n && q < L.n && i < L.buf && !(L.Addr(0) <= i < L.Addr(L.count))
    ensures ReduceRounds(L, add, x, s)[q][i] == x[q][i] && GatherRounds(L, x, s)[q][i] == x[q][i]
  {
    hide ReduceRound, GatherRound;
    if s > 0 {
      RoundsOutside(L, add, x, s - 1, q, i);
      RoundsKeepOutside(L, add, ReduceRounds(L, add, x, s - 1), L.n - (s - 1), q, i);
      RoundsKeepOutside(L, add, GatherRounds(L, x, s - 1), if s == 1 then 1 else L.n - (s - 2), q, i);
    }
  }

  /** The memories after a whole all-reduce. */
  ghost function AllReduced(L: Layout, add: Adder, x: seq<seq<Byte>>): (r: seq<seq<Byte>>)
    requires L.Valid() && L.Fits(x)
    ensures L.Fits(r)
  {
    GatherRounds(L, ReduceRounds(L, add, x, L.n - 1), L.n - 1)
  }

  /** The word of element e of the range on one rank. */
  function WordOf(L: Layout, m: seq<Byte>, e: nat): F32
    requires 4 * (L.off + e) + 4 <= |m|
  {
    m[4 * (L.off + e)..4 * (L.off + e) + 4]
  }

  /** Where chunk c begins: the first count % n chunks have one element more than the others. */
  function ChunkStart(L: Layout, c: nat): nat
    requires L.n > 0
  {
    c * (L.count / L.n) + if c < L.count % L.n then c else L.count % L.n
  }

  lemma ChunkWritten(L: Layout, c: nat, e: nat)
    requires L.n > 0 && c < L.n
    ensures InChunk(L, c, e) <==> ChunkStart(L, c) <= e < ChunkStart(L, c + 1)
  {
    OffsetClosed(L.count, L.n, c);
    assert (c + 1) * (L.count / L.n) == c * (L.count / L.n) + L.count / L.n;
  }

  /** The words of element e on ranks c, c + 1, ..., around the ring, added one after the other. */
  ghost predicate RingChain(L: Layout, add: Adder, x: seq<seq<Byte>>, c: nat, e: nat, acc: seq<F32>)
    requires L.n > 0 && L.Fits(x) && 4 * (L.off + e) + 4 <= L.buf && c < L.n
  {
    && |acc| == L.n && acc[0] == x[c][4 * (L.off + e)..4 * (L.off + e) + 4]
    && forall d :: 0 < d < L.n ==>
         acc[d] == add(x[if c + d < L.n then c + d else c + d - L.n][4 * (L.off + e)..4 * (L.off + e) + 4], acc[d - 1])
  }

  lemma {:induction false} FoldIsChain(L: Layout, add: Adder, x: seq<seq<Byte>>, c: nat, e: nat, acc: seq<F32>, d: nat)
    requires L.Valid() && L.Fits(x) && c < L.n && e < L.count && d < L.n && RingChain(L, add, x, c, e, acc)
    ensures Fold(L, add, x, c, d, e) == acc[d]
  {
    if d > 0 { FoldIsChain(L, add, x, c, e, acc, d - 1); }
  }

  /**
    After the all-reduce, every rank holds for an element of chunk c the words of all ranks added
    in ring order from rank c, at byte 4 * (off + e). Addition is any function, so ranks agree to
    the bit on floats.
   */
  lemma AllReduceFolds(L: Layout, add: Adder, x: seq<seq<Byte>>, q: nat, c: nat, e: nat, acc: seq<F32>)
    requires L.Valid() && L.Fits(x) && q < L.n && c < L.n && e < L.count
    requires ChunkStart(L, c) <= e < ChunkStart(L, c + 1) && RingChain(L, add, x, c, e, acc)
    ensures AllReduced(L, add, x)[q][4 * (L.off + e)..4 * (L.off + e) + 4] == acc[L.n - 1]
  {
    hide AllReduced, InChunk, Fold, ChunkStart, MaxChunk;
    ChunkWritten(L, c, e);
    FoldIsChain(L, add, x, c, e, acc, L.n - 1);
    ReducedElement(L, add, x, q, c, e);
  }

  /** Every element is in a chunk, and has such a chain. */
  lemma ChainOfElement(L: Layout, add: Adder, x: seq<seq<Byte>>, e: nat) returns (c: nat, acc: seq<F32>)
    requires L.Valid() && L.Fits(x) && e < L.count
    ensures c < L.n && ChunkStart(L, c) <= e < ChunkStart(L, c + 1) && RingChain(L, add, x, c, e, acc)
  {
    c := FindChunk(L, e);
    ChunkWritten(L, c, e);
    hide InChunk, ChunkStart;
    acc := [WordOf(L, x[c], e)];
    for d := 1 to L.n
      invariant |acc| == d && acc[0] == x[c][4 * (L.off + e)..4 * (L.off + e) + 4]
      invariant forall i :: 0 < i < d ==>
                  acc[i] == add(x[if c + i < L.n then c + i else c + i - L.n][4 * (L.off + e)..4 * (L.off + e) + 4], acc[i - 1])
    {
      acc := acc + [add(WordOf(L, x[if c + d < L.n then c + d else c + d - L.n], e), acc[d - 1])];
    }
  }

  lemma ReducedElement(L: Layout, add: Adder, x: seq<seq<Byte>>, q: nat, c: nat, e: nat)
    requires L.Valid() && L.Fits(x) && q < L.n && c < L.n && e < L.count && InChunk(L, c, e)
    ensures F32At(AllReduced(L, add, x)[q], L.Addr(e)) == Fold(L, add, x, c, L.n - 1, e)
  {
    hide F32At, InChunk, ReduceRounds, GatherRounds, Fold;
    var half := ReduceRounds(L, add, x, L.n - 1);
    var last := Wrap(c + L.n - 1, L.n);
    ReduceRoundsValue(L, add, x, L.n - 1, last, c, e);
    GatherRoundsValue(L, half, L.n - 1, q, c, e, Fold(L, add, x, c, L.n - 1, e));
  }

  /** No user byte outside [4 * off, 4 * (off + count)) is changed. */
  lemma AllReduceKeeps(L: Layout, add: Adder, x: seq<seq<Byte>>, q: nat, i: nat)
    requires L.Valid() && L.Fits(x) && q < L.n && i < L.buf && !(4 * L.off <= i < 4 * (L.off + L.count))
    ensures AllReduced(L, add, x)[q][i] == x[q][i]
  {
    hide ReduceRounds, GatherRounds, Offset, ChunkBase, ChunkRem;
    RoundsOutside(L, add, x, L.n - 1, q, i);
    RoundsOutside(L, add, ReduceRounds(L, add, x, L.n - 1), L.n - 1, q, i);
  }

  /** All ranks end with the same bits in the whole range. */
  lemma RanksAgree(L: Layout, add: Adder, x: seq<seq<Byte>>, p: nat, q: nat, e: nat)
    requires L.Valid() && L.Fits(x) && p < L.n && q < L.n && e < L.count
    ensures AllReduced(L, add, x)[p][4 * (L.off + e)..4 * (L.off + e) + 4]
            == AllReduced(L, add, x)[q][4 * (L.off + e)..4 * (L.off + e) + 4]
  {
    hide AllReduced, RingChain, ChunkStart;
    var c, acc := ChainOfElement(L, add, x, e);
    AllReduceFolds(L, add, x, p, c, e, acc);
    AllReduceFolds(L, add, x, q, c, e, acc);
  }

  // ---------- The sum ----------

  ghost predicate Associative(add: Adder) {
    forall a, b, c :: add(add(a, b), c) == add(a, add(b, c))
  }

  ghost predicate Commutative(add: Adder) {
    forall a, b :: add(a, b) == add(b, a)
  }

  /** The contributions of ranks lo up to hi, summed. */
  function Span(L: Layout, add: Adder, x: seq<seq<Byte>>, lo: nat, hi: nat, e: nat): F32
    requires L.Valid() && L.Fits(x) && lo < hi <= L.n && e < L.count
  {
    if hi == lo + 1 then Input(L, x, lo, e)
    else add(Input(L, x, hi - 1, e), Span(L, add, x, lo, hi - 1, e))
  }

  lemma {:induction false} SpanSplits(L: Layout, add: Adder, x: seq<seq<Byte>>, mid: nat, hi: nat, e: nat)
    requires L.Valid() && L.Fits(x) && 0 < mid < hi <= L.n && e < L.count && Associative(add)
    ensures Span(L, add, x, 0, hi, e) == add(Span(L, add, x, mid, hi, e), Span(L, add, x, 0, mid, e))
  {
    hide F32At;
    if hi > mid + 1 {
      SpanSplits(L, add, x, mid, hi - 1, e);
      var a, b, c := Input(L, x, hi - 1, e), Span(L, add, x, mid, hi - 1, e), Span(L, add, x, 0, mid, e);
      assert add(add(a, b), c) == add(a, add(b, c));
    }
  }

  /** The ring fold is a sum up to the last rank, then wraps around to rank 0. */
  lemma {:induction false} FoldIsSpans(L: Layout, add: Adder, x: seq<seq<Byte>>, c: nat, d: nat, e: nat)
    requires L.Valid() && L.Fits(x) && c < L.n && d < L.n && e < L.count && Associative(add)
    ensures Fold(L, add, x, c, d, e) ==
            if c + d < L.n then Span(L, add, x, c, c + d + 1, e)
            else add(Span(L, add, x, 0, c + d - L.n + 1, e), Span(L, add, x, c, L.n, e))
  {
    hide F32At;
    if d > 0 {
      FoldIsSpans(L, add, x, c, d - 1, e);
      var k := c + d - L.n;
      if k > 0 {
        var a, b, s := Input(L, x, k, e), Span(L, add, x, 0, k, e), Span(L, add, x, c, L.n, e);
        assert add(add(a, b), s) == add(a, add(b, s));
      }
    }
  }

  /** The words of element e on ranks 0, 1, ..., added one after the other. */
  ghost predicate RankChain(L: Layout, add: Adder, x: seq<seq<Byte>>, e: nat, acc: seq<F32>)
    requires L.n > 0 && L.Fits(x) && 4 * (L.off + e) + 4 <= L.buf
  {
    && |acc| == L.n && acc[0] == x[0][4 * (L.off + e)..4 * (L.off + e) + 4]
    && forall r :: 0 < r < L.n ==> acc[r] == add(x[r][4 * (L.off + e)..4 * (L.off + e) + 4], acc[r - 1])
  }

  lemma {:induction false} SpanIsChain(L: Layout, add: Adder, x: seq<seq<Byte>>, e: nat, acc: seq<F32>, hi: nat)
    requires L.Valid() && L.Fits(x) && e < L.count && 0 < hi <= L.n && RankChain(L, add, x, e, acc)
    ensures Span(L, add, x, 0, hi, e) == acc[hi - 1]
  {
    if hi > 1 { SpanIsChain(L, add, x, e, acc, hi - 1); }
  }

  /** With an associative and commutative addition the result is the sum over all ranks. */
  lemma AllReduceSums(L: Layout, add: Adder, x: seq<seq<Byte>>, q: nat, e: nat, acc: seq<F32>)
    requires L.Valid() && L.Fits(x) && q < L.n && e < L.count && Associative(add) && Commutative(add)
    requires RankChain(L, add, x, e, acc)
    ensures AllReduced(L, add, x)[q][4 * (L.off + e)..4 * (L.off + e) + 4] == acc[L.n - 1]
  {
    hide AllReduced, Span, MaxChunk, Associative, Commutative;
    SpanIsChain(L, add, x, e, acc, L.n);
    AllReduceSpans(L, add, x, q, e);
  }

  lemma AllReduceSpans(L: Layout, add: Adder, x: seq<seq<Byte>>, q: nat, e: nat)
    requires L.Valid() && L.Fits(x) && q < L.n && e < L.count && Associative(add) && Commutative(add)
    ensures F32At(AllReduced(L, add, x)[q], L.Addr(e)) == Span(L, add, x, 0, L.n, e)
  {
    hide F32At, InChunk, AllReduced, Fold, Span;
    var c := FindChunk(L, e);
    ReducedElement(L, add, x, q, c, e);
    FoldIsSpans(L, add, x, c, L.n - 1, e);
    if c > 0 {
      SpanSplits(L, add, x, c, L.n, e);
      assert add(Span(L, add, x, 0, c, e), Span(L, add, x, c, L.n, e))
          == add(Span(L, add, x, c, L.n, e), Span(L, add, x, 0, c, e));
    }
  }
}
