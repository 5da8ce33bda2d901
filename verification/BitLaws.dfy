/** What the digit-wise operators and the shifts do to every binary digit. */
module BitLaws {
  import opened Bits

  /** Binary digit i. */
  function DigitAt(v: nat, i: nat): nat { if i == 0 then v % 2 else DigitAt(v / 2, i - 1) }

  lemma {:induction false} BitwiseAt(op: (nat, nat) -> nat, a: nat, b: nat, n: nat, i: nat)
    requires forall x, y :: x < 2 && y < 2 ==> op(x, y) < 2
    requires i < n
    ensures DigitAt(Bitwise(op, a, b, n), i) == op(DigitAt(a, i), DigitAt(b, i))
  {
    if i > 0 { BitwiseAt(op, a / 2, b / 2, n - 1, i - 1); }
  }

  lemma {:induction false} DigitIsBit(v: nat, i: nat)
    ensures DigitAt(v, i) == 0 || DigitAt(v, i) == 1
  {
    if i > 0 { DigitIsBit(v / 2, i - 1); }
  }

  /** AND, OR and XOR act on every digit. */
  lemma LogicAt(a: Word, b: Word, i: nat)
    requires i < 32
    ensures DigitAt(Bits.And(a, b), i) == 1 <==> DigitAt(a, i) == 1 && DigitAt(b, i) == 1
    ensures DigitAt(Bits.Or(a, b), i) == 1 <==> DigitAt(a, i) == 1 || DigitAt(b, i) == 1
    ensures DigitAt(Bits.Xor(a, b), i) == 1 <==> DigitAt(a, i) != DigitAt(b, i)
  {
    hide Bitwise, DigitAt;
    DigitIsBit(a, i);
    DigitIsBit(b, i);
    BitwiseAt(BitAnd, a, b, 32, i);
    BitwiseAt(BitOr, a, b, 32, i);
    BitwiseAt(BitXor, a, b, 32, i);
  }

  lemma {:induction false} ComplementAt(a: nat, n: nat, i: nat)
    requires a < Pow2(n) && i < n
    ensures DigitAt(Pow2(n) - 1 - a, i) == 1 - DigitAt(a, i)
  {
    if i > 0 {
      assert (Pow2(n) - 1 - a) / 2 == Pow2(n - 1) - 1 - a / 2;
      ComplementAt(a / 2, n - 1, i - 1);
    }
  }

  /** So does NOT. */
  lemma NotAt(a: Word, i: nat)
    requires i < 32
    ensures DigitAt(Bits.Not(a), i) == 1 <==> DigitAt(a, i) == 0
  {
    Pow2Of32();
    DigitIsBit(a, i);
    ComplementAt(a, 32, i);
  }

  // ---------- Shifts ----------

  lemma HalfOfMod(x: nat, p: nat)
    requires p > 0
    ensures x % (2 * p) % 2 == x % 2 && x % (2 * p) / 2 == x / 2 % p
  {
    var q, r := x / (2 * p), x % (2 * p);
    assert x == 2 * (q * p) + r by { assert q * (2 * p) == 2 * (q * p); }
    assert x / 2 == q * p + r / 2;
    DivUnique(x / 2, p, q, r / 2);
  }

  lemma {:induction false} ModKeepsDigits(x: nat, n: nat, i: nat)
    requires i < n
    ensures DigitAt(x % Pow2(n), i) == DigitAt(x, i)
  {
    HalfOfMod(x, Pow2(n - 1));
    if i > 0 { ModKeepsDigits(x / 2, n - 1, i - 1); }
  }

  lemma {:induction false} ScaledDigits(a: nat, n: nat, i: nat)
    ensures DigitAt(a * Pow2(n), i) == if i < n then 0 else DigitAt(a, i - n)
  {
    if n > 0 {
      assert a * Pow2(n) == 2 * (a * Pow2(n - 1));
      if i > 0 { ScaledDigits(a, n - 1, i - 1); }
    }
  }

  lemma HalvesFirst(a: nat, p: nat)
    requires p > 0
    ensures a / (2 * p) == a / 2 / p
  {
    var h := a / 2;
    assert h == h / p * p + h % p;
    assert a == h / p * (2 * p) + (2 * (h % p) + a % 2);
    DivUnique(a, 2 * p, h / p, 2 * (h % p) + a % 2);
  }

  lemma {:induction false} QuotientDigits(a: nat, n: nat, i: nat)
    ensures a / Pow2(n) >= 0 && DigitAt(a / Pow2(n), i) == DigitAt(a, i + n)
  {
    DivTimes(a, Pow2(n));
    if n > 0 {
      HalvesFirst(a, Pow2(n - 1));
      QuotientDigits(a / 2, n - 1, i);
    }
  }

  /** A shift moves every digit; zeros come in, and what leaves 32 digits is lost. */
  lemma ShiftAt(a: Word, n: nat, i: nat)
    requires i < 32
    ensures DigitAt(Shl(a, n), i) == if i < n then 0 else DigitAt(a, i - n)
    ensures DigitAt(Shr(a, n), i) == if i + n < 32 then DigitAt(a, i + n) else 0
  {
    Pow2Of32();
    ModKeepsDigits(a * Pow2(n), 32, i);
    ScaledDigits(a, n, i);
    QuotientDigits(a, n, i);
    if i + n >= 32 { HighDigit(a, 32, i + n); }
  }

  lemma {:induction false} HighDigit(a: nat, n: nat, i: nat)
    requires a < Pow2(n) && i >= n
    ensures DigitAt(a, i) == 0
  {
    if n == 0 { ZeroDigit(i); } else { HighDigit(a / 2, n - 1, i - 1); }
  }

  lemma {:induction false} ZeroDigit(i: nat)
    ensures DigitAt(0, i) == 0
  {
    if i > 0 { ZeroDigit(i - 1); }
  }

  // ---------- Words in memory ----------

  /** The word that four bytes stand for, the lowest one first. */
  function FourBytes(mem: seq<Byte>, addr: nat): nat
    requires addr + 4 <= |mem|
  {
    mem[addr] as int + 256 * (mem[addr + 1] as int) + 65536 * (mem[addr + 2] as int) + 16777216 * (mem[addr + 3] as int)
  }

  /** A word is stored and read with its lowest byte first. */
  lemma LittleEndian(mem: seq<Byte>, addr: nat, v: Word)
    requires addr + 4 <= |mem|
    ensures Read32(mem, addr) == FourBytes(mem, addr) && FourBytes(Write32(mem, addr, v), addr) == v
    ensures forall k :: 0 <= k < |mem| && !(addr <= k < addr + 4) ==> Write32(mem, addr, v)[k] == mem[k]
  {
    Digits(v);
  }
}
