/** The all-gather and the broadcast on the ranks' memories as values. */
module GatherSpec {
  import opened Bits
  import opened RingSpec
  import opened RingProofs

  /** Byte ranges of an all-gather: each rank contributes [inAt, inAt + len); the results begin at outAt. */
  datatype Plan = Plan(n: nat, buf: nat, scratch: nat, inAt: nat, outAt: nat, len: nat) {
    predicate Valid() {
      inAt + len <= buf && outAt + n * len <= buf && len <= scratch
    }

    predicate Fits(x: seq<seq<Byte>>) {
      |x| == n && forall r :: 0 <= r < n ==> |x[r]| == buf + scratch
    }

    /** Where rank src's contribution goes. */
    function Slot(src: nat): nat { outAt + src * len }
  }

  lemma SlotInRange(P: Plan, src: nat)
    requires P.Valid() && src < P.n
    ensures P.outAt <= P.Slot(src) && P.Slot(src) + P.len <= P.outAt + P.n * P.len <= P.buf
    ensures P.Slot(src) + P.len == P.Slot(src + 1)
  {
    MulLe(src + 1, P.n, P.len);
    assert (src + 1) * P.len == src * P.len + P.len;
  }

  lemma SlotFits(P: Plan, src: nat)
    requires P.Valid() && src < P.n
    ensures P.Slot(src) + P.len <= P.buf && P.len <= P.scratch
  {
    SlotInRange(P, src);
  }

  lemma SlotsApart(P: Plan, a: nat, b: nat)
    requires a < b
    ensures P.Slot(a) + P.len <= P.Slot(b)
  {
    MulLe(a + 1, b, P.len);
    assert (a + 1) * P.len == a * P.len + P.len;
  }

  function Contribution(P: Plan, x: seq<seq<Byte>>, src: nat): (s: seq<Byte>)
    requires P.Valid() && P.Fits(x) && src < P.n
    ensures |s| == P.len
  {
    x[src][P.inAt..P.inAt + P.len]
  }

  /** Rank q after its inbox snapshot and the contributions of the first k ranks. */
  function Gathered(P: Plan, x: seq<seq<Byte>>, q: nat, k: nat): (m: seq<Byte>)
    requires P.Valid() && P.Fits(x) && q < P.n && k <= P.n
    ensures |m| == P.buf + P.scratch
  {
    if k == 0 then Blit(x[q], P.buf, Contribution(P, x, q))
    else
      SlotInRange(P, k - 1);
      Blit(Gathered(P, x, q, k - 1), P.Slot(k - 1), Contribution(P, x, k - 1))
  }

  lemma BlitSlice(m: seq<Byte>, at: nat, src: seq<Byte>, lo: nat, hi: nat)
    requires at + |src| <= |m| && lo <= hi <= |m|
    ensures lo == at && hi == at + |src| ==> Blit(m, at, src)[lo..hi] == src
    ensures hi <= at || at + |src| <= lo ==> Blit(m, at, src)[lo..hi] == m[lo..hi]
  {
    var r := Blit(m, at, src);
    assert forall i :: lo <= i < hi && (hi <= at || at + |src| <= lo) ==> r[i] == m[i];
    assert forall i :: at <= i < at + |src| ==> r[i] == src[i - at];
  }

  /** The inbox keeps the rank's own contribution while results arrive. */
  lemma {:induction false} InboxKept(P: Plan, x: seq<seq<Byte>>, q: nat, k: nat)
    requires P.Valid() && P.Fits(x) && q < P.n && k <= P.n
    ensures Gathered(P, x, q, k)[P.buf..P.buf + P.len] == Contribution(P, x, q)
  {
    hide Blit, Contribution;
    if k == 0 {
      BlitSlice(x[q], P.buf, Contribution(P, x, q), P.buf, P.buf + P.len);
    } else {
      InboxKept(P, x, q, k - 1);
      SlotInRange(P, k - 1);
      BlitSlice(Gathered(P, x, q, k - 1), P.Slot(k - 1), Contribution(P, x, k - 1), P.buf, P.buf + P.len);
    }
  }

  lemma {:induction false} GatheredSlot(P: Plan, x: seq<seq<Byte>>, q: nat, k: nat, src: nat)
    requires P.Valid() && P.Fits(x) && q < P.n && src < k <= P.n
    ensures P.Slot(src) + P.len <= P.buf
    ensures Gathered(P, x, q, k)[P.Slot(src)..P.Slot(src) + P.len] == Contribution(P, x, src)
  {
    hide Blit, Contribution, Plan.Slot;
    SlotInRange(P, src);
    SlotInRange(P, k - 1);
    BlitSlice(Gathered(P, x, q, k - 1), P.Slot(k - 1), Contribution(P, x, k - 1), P.Slot(src), P.Slot(src) + P.len);
    if src < k - 1 {
      GatheredSlot(P, x, q, k - 1, src);
      SlotsApart(P, src, k - 1);
    }
  }

  lemma {:induction false} GatheredOutside(P: Plan, x: seq<seq<Byte>>, q: nat, k: nat, i: nat)
    requires P.Valid() && P.Fits(x) && q < P.n && k <= P.n
    requires i < P.buf && !(P.outAt <= i < P.outAt + P.n * P.len)
    ensures Gathered(P, x, q, k)[i] == x[q][i]
  {
    hide Blit, Contribution, Plan.Slot;
    if k == 0 {
      BlitAt(x[q], P.buf, Contribution(P, x, q), i);
    } else {
      GatheredOutside(P, x, q, k - 1, i);
      SlotInRange(P, k - 1);
      BlitAt(Gathered(P, x, q, k - 1), P.Slot(k - 1), Contribution(P, x, k - 1), i);
    }
  }

  /**
    After the all-gather every rank holds every rank's original input in that rank's slot,
    even when the input and output ranges overlap, and no other user byte has changed.
   */
  lemma AllGatherCollects(P: Plan, x: seq<seq<Byte>>, q: nat, src: nat)
    requires P.Valid() && P.Fits(x) && q < P.n && src < P.n
    ensures P.outAt + src * P.len + P.len <= P.buf
    ensures Gathered(P, x, q, P.n)[P.outAt + src * P.len..P.outAt + src * P.len + P.len]
            == x[src][P.inAt..P.inAt + P.len]
  {
    hide Gathered;
    GatheredSlot(P, x, q, P.n, src);
  }

  lemma AllGatherKeeps(P: Plan, x: seq<seq<Byte>>, q: nat, i: nat)
    requires P.Valid() && P.Fits(x) && q < P.n && i < P.buf && !(P.outAt <= i < P.outAt + P.n * P.len)
    ensures Gathered(P, x, q, P.n)[i] == x[q][i]
  {
    GatheredOutside(P, x, q, P.n, i);
  }
}
