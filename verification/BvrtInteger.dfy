/** What the interpreter's counting and shifting operations mean. */
module BvrtInteger {
  import opened Bits
  import opened BradVector
  import opened Bvrt
  import opened BitLaws

  lemma CountStep(op: (nat, nat) -> nat, a: nat, b: nat, n: nat)
    requires forall x, y :: x < 2 && y < 2 ==> op(x, y) < 2
    requires n > 0
    ensures PopCount(Bitwise(op, a, b, n), n)
            == op(a % 2, b % 2) + PopCount(Bitwise(op, a / 2, b / 2, n - 1), n - 1)
  {
  }

  /** Ones are neither lost nor made between AND and OR. */
  lemma {:induction false} CountAndOr(a: nat, b: nat, n: nat)
    ensures PopCount(Bitwise(BitAnd, a, b, n), n) + PopCount(Bitwise(BitOr, a, b, n), n)
            == PopCount(a, n) + PopCount(b, n)
  {
    hide Bitwise;
    if n > 0 {
      CountStep(BitAnd, a, b, n);
      CountStep(BitOr, a, b, n);
      CountAndOr(a / 2, b / 2, n - 1);
    }
  }

  /** The highest one bit is where the value lies between two powers of two. */
  lemma {:induction false} HighBitIs(v: nat, n: nat)
    requires v < Pow2(n)
    ensures v == 0 ==> HighBit(v, n) == -1
    ensures v > 0 ==> 0 <= HighBit(v, n) < n && Pow2(HighBit(v, n)) <= v < Pow2(HighBit(v, n) + 1)
  {
    if n > 0 {
      TopDigit(v, n - 1);
      if v < Pow2(n - 1) { HighBitIs(v, n - 1); }
    }
  }

  lemma TopDigit(v: nat, n: nat)
    requires v < Pow2(n + 1)
    ensures v / Pow2(n) == if v < Pow2(n) then 0 else 1
  {
    BelowTwice(v, Pow2(n));
  }

  lemma BelowTwice(v: nat, p: nat)
    requires v < 2 * p
    ensures v / p == if v < p then 0 else 1
  {
    var q := v / p;
    assert v == q * p + v % p;
    assert q >= 2 ==> q * p >= 2 * p;
    assert q <= 0 ==> q * p <= 0;
  }

  /** CLZ counts the zeros above the bit that BFIND finds; both agree on zero. */
  lemma LeadingZeros(a: Word, b: Word, c: Word)
    ensures var z, f := IntegerResult(CLZ, a, b, c), IntegerResult(BFIND, a, b, c);
            && z <= 32 && (a == 0 <==> z == 32) && (a == 0 <==> f == WORD - 1)
            && (a > 0 ==> f == 31 - z && Pow2(f) <= a < Pow2(f + 1))
  {
    hide HighBit, Pow2, PopCount, Bits.And, Bits.Or, Bits.Xor, Bits.Not, Shl, Shr, Quotient;
    Pow2Of32();
    HighBitIs(a, 32);
  }

  /** Shifting left and back keeps the low digits. */
  lemma ShiftBack(a: Word, n: nat)
    requires n < 32 && a < Pow2(32 - n)
    ensures Shl(a, n) == a * Pow2(n) && Shr(Shl(a, n), n) == a
  {
    Pow2Of32();
    Pow2Sum(32 - n, n);
    Product(a, Pow2(32 - n), Pow2(n));
  }

  lemma Product(a: nat, m: nat, p: nat)
    requires a < m && p > 0
    ensures a * p < m * p && a * p / p == a
  {
    DivUnique(a * p, p, a, 0);
    assert (m - a) * p > 0;
  }
}
