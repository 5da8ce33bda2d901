/** The freestanding runtime: 64-bit division, number printing and parsing, overlapping copies. */
module WasmShim {
  import opened Bits

  // ---------- Division ----------

  type U64 = w: int | 0 <= w < TWO_64

  const TWO_63 := 0x8000_0000_0000_0000

  type I64 = w: int | -TWO_63 <= w < TWO_63

  function BitOf(a: nat, i: nat): nat { a / Pow2(i) % 2 }

  /** Setting a bit that is clear adds its weight. */
  function SetBit(q: nat, i: nat): nat { if BitOf(q, i) == 1 then q else q + Pow2(i) }

  lemma DivByPow2(a: nat, i: nat)
    ensures a / Pow2(i) == 2 * (a / Pow2(i + 1)) + BitOf(a, i)
  {
    HalvesTwice(a, Pow2(i));
  }

  lemma HalvesTwice(a: nat, p: nat)
    requires p > 0
    ensures a / p / 2 == a / (2 * p)
  {
    var t := a / p;
    var u := t / 2;
    assert a == t * p + a % p && t == 2 * u + t % 2;
    assert a == u * (2 * p) + (t % 2 * p + a % p);
    DivUnique(a, 2 * p, u, t % 2 * p + a % p);
  }

  lemma {:induction false} MultipleClear(k: nat, i: nat)
    ensures BitOf(k * Pow2(i + 1), i) == 0
  {
    assert k * Pow2(i + 1) == (2 * k) * Pow2(i);
    DivUnique(k * Pow2(i + 1), Pow2(i), 2 * k, 0);
  }

  lemma {:induction false} TopSmall(a: nat, n: nat, i: nat)
    requires i <= n && a < Pow2(n)
    ensures a / Pow2(i) < Pow2(n - i)
  {
    if i == 0 {
    } else {
      TopSmall(a, n, i - 1);
      DivByPow2(a, i - 1);
    }
  }

  lemma {:induction false} Pow2Of64()
    ensures Pow2(64) == TWO_64 && Pow2(63) == TWO_63
  {
    Pow2Sum(32, 32);
    Pow2Of32();
  }

  /** The state before the round for bit i - 1: qq is the quotient of the bits done, q the same in place. */
  ghost predicate Divided(a: nat, b: nat, i: nat, qq: nat, q: nat, r: nat) {
    && i <= 64 && a / Pow2(i) == qq * b + r && q == qq * Pow2(i)
    && if b > 0 then r < b else qq == Pow2(64 - i) - 1
  }

  lemma DivideStart(a: U64, b: U64)
    ensures Divided(a, b, 64, 0, 0, 0)
  {
    Pow2Of64();
    TopSmall(a, 64, 64);
  }

  /** The remainder stays below 2^63, so that shifting it loses nothing. */
  lemma ShiftFits(a: U64, b: U64, i: nat, qq: nat, q: nat, r: nat)
    requires i < 64 && Divided(a, b, i + 1, qq, q, r)
    ensures 2 * r + 1 < TWO_64
  {
    Pow2Of64();
    TopSmall(a, 64, i + 1);
    Pow2Grows(64 - (i + 1), 63);
    RemainderSmall(qq, b, r, a / Pow2(i + 1));
  }

  lemma RemainderSmall(q: nat, b: nat, r: nat, top: nat)
    requires top == q * b + r
    ensures r <= top
  {
    assert q * b >= 0;
  }

  /** The dividend's next bit comes in; the divisor is subtracted when it fits. */
  lemma DivideRound(a: U64, b: U64, i: nat, qq: nat, q: nat, r: nat)
    requires i < 64 && Divided(a, b, i + 1, qq, q, r)
    ensures var x := 2 * r + BitOf(a, i);
            if x >= b then Divided(a, b, i, 2 * qq + 1, SetBit(q, i), x - b) else Divided(a, b, i, 2 * qq, q, x)
  {
    var x := 2 * r + BitOf(a, i);
    DivByPow2(a, i);
    BitSmall(a, i);
    NextQuotient(a / Pow2(i + 1), b, qq, r, BitOf(a, i));
    MultipleClear(qq, i);
    InPlace(qq, Pow2(i));
    if b == 0 { assert Pow2(64 - i) == 2 * Pow2(64 - (i + 1)); }
  }

  lemma BitSmall(a: nat, i: nat)
    ensures BitOf(a, i) < 2
  {
  }

  lemma NextQuotient(top: nat, b: nat, qq: nat, r: nat, bit: nat)
    requires top == qq * b + r
    ensures 2 * top + bit == 2 * qq * b + (2 * r + bit)
    ensures 2 * top + bit == (2 * qq + 1) * b + (2 * r + bit - b)
  {
  }

  lemma InPlace(qq: nat, p: nat)
    ensures qq * (2 * p) == 2 * qq * p && qq * (2 * p) + p == (2 * qq + 1) * p
  {
  }

  /** When all bits are done, quotient and remainder are exact. */
  lemma DivideEnd(a: U64, b: U64, qq: nat, q: nat, r: nat)
    requires Divided(a, b, 0, qq, q, r)
    ensures if b > 0 then q == a / b && r == a % b else q == TWO_64 - 1 && r == a
    ensures q < TWO_64
  {
    Pow2Of64();
    if b > 0 {
      DivUnique(a, b, q, r);
      DivShrinks(a, b);
    }
  }

  /**
    udivmod: shift-and-subtract long division, exact for every dividend and every nonzero divisor
    although each shift is cut to 64 bits. Dividing by zero gives all ones and the dividend.
   */
  method Udivmod(a: U64, b: U64, isDiv: bool) returns (v: U64)
    ensures b > 0 ==> v == if isDiv then a / b else a % b
    ensures b == 0 ==> v == if isDiv then TWO_64 - 1 else a
  {
    hide Divided, BitOf, SetBit;
    var q: nat, r: nat := 0, 0;
    ghost var qq: nat := 0;
    var i := 64;
    DivideStart(a, b);
    while i > 0
      invariant 0 <= i <= 64 && Divided(a, b, i, qq, q, r)
    {
      i := i - 1;
      ShiftFits(a, b, i, qq, q, r);
      DivideRound(a, b, i, qq, q, r);
      r := 2 * r % TWO_64 + BitOf(a, i);
      qq := if r >= b then 2 * qq + 1 else 2 * qq;
      if r >= b {
        r := r - b;
        q := SetBit(q, i);
      }
    }
    DivideEnd(a, b, qq, q, r);
    v := if isDiv then q else r;
  }

  lemma {:induction false} Pow2Grows(i: nat, j: nat)
    requires i <= j
    ensures Pow2(i) <= Pow2(j)
    decreases j
  {
    if i < j { Pow2Grows(i, j - 1); }
  }

  function Abs(a: int): nat { if a < 0 then -a else a }

  function Ratio(x: nat, y: nat): int
    requires y > 0
  {
    x / y
  }

  /** Quotient and remainder truncated toward zero. */
  function TruncDiv(a: int, b: int): int
    requires b != 0
  {
    if (a < 0) != (b < 0) then -Ratio(Abs(a), Abs(b)) else Ratio(Abs(a), Abs(b))
  }

  function TruncRem(a: int, b: int): int
    requires b != 0
  {
    if a < 0 then -(Abs(a) % Abs(b)) else Abs(a) % Abs(b)
  }

  /** Section 6.5.5 of ISO/IEC 9899:2011: (a/b)*b + a%b is a, with the remainder's sign that of a. */
  lemma TruncationLaw(a: int, b: int)
    requires b != 0
    ensures TruncDiv(a, b) * b + TruncRem(a, b) == a
    ensures Abs(TruncRem(a, b)) < Abs(b) && (TruncRem(a, b) != 0 ==> (TruncRem(a, b) < 0 <==> a < 0))
  {
    var q, r := Abs(a) / Abs(b), Abs(a) % Abs(b);
    assert Abs(a) == q * Abs(b) + r;
    assert q * Abs(b) == if b < 0 then -(q * b) else q * b;
  }

  /** The conversions between the two 64-bit types. */
  function ToSigned(u: U64): I64 { if u < TWO_63 then u else u - TWO_64 }

  function Negated(u: U64): U64 { (TWO_64 - u) % TWO_64 }

  function Wrapped(x: int): I64 { ToSigned(x % TWO_64) }

  lemma WrappedNegation(u: int)
    requires 0 <= u < TWO_64
    ensures ToSigned(Negated(u)) == Wrapped(-u) && ToSigned(u) == Wrapped(u)
  {
  }

  /** The magnitude, taken through the unsigned type. */
  function Magnitude(a: I64): (u: U64)
    ensures u == Abs(a)
  {
    if a < 0 then Negated(a % TWO_64) else a
  }

  /** The signed quotient; dividing by zero gives -1, or 1 for a negative dividend. */
  method Divdi3(a: I64, b: I64) returns (q: I64)
    ensures b != 0 ==> q == Wrapped(TruncDiv(a, b))
    ensures b == 0 ==> q == if a < 0 then 1 else -1
  {
    hide Magnitude, ToSigned, Negated, Wrapped, TruncDiv;
    var u := Udivmod(Magnitude(a), Magnitude(b), true);
    WrappedNegation(u);
    AllOnes();
    if b != 0 { QuotientOfMagnitudes(a, b); }
    q := if (a < 0) != (b < 0) then ToSigned(Negated(u)) else ToSigned(u);
  }

  lemma AllOnes()
    ensures ToSigned(TWO_64 - 1) == -1 && ToSigned(Negated(TWO_64 - 1)) == 1
  {
  }

  lemma QuotientOfMagnitudes(a: I64, b: I64)
    requires b != 0
    ensures TruncDiv(a, b) == if (a < 0) != (b < 0) then -(Magnitude(a) / Magnitude(b) as int) else Magnitude(a) / Magnitude(b)
  {
  }

  /** The signed remainder; modulo zero gives the dividend. */
  method Moddi3(a: I64, b: I64) returns (r: I64)
    ensures r == if b != 0 then TruncRem(a, b) else a
  {
    hide Magnitude;
    var u := Udivmod(Magnitude(a), Magnitude(b), false);
    if b != 0 { RemainderFits(a, b); }
    r := if a < 0 then ToSigned(Negated(u)) else ToSigned(u);
  }

  lemma RemainderFits(a: I64, b: I64)
    requires b != 0
    ensures 0 <= Abs(a) % Abs(b) < TWO_63
  {
  }

  /** The signed quotient is exact in every case but the one that overflows. */
  lemma QuotientExactIff(a: I64, b: I64)
    requires b != 0
    ensures Wrapped(TruncDiv(a, b)) == TruncDiv(a, b) <==> !(a == -TWO_63 && b == -1)
  {
    hide TruncDiv;
    TruncRange(a, b);
    WrapExact(TruncDiv(a, b));
  }

  lemma WrapExact(x: int)
    requires -TWO_63 <= x <= TWO_63
    ensures Wrapped(x) == x <==> x != TWO_63
  {
  }

  lemma TruncRange(a: I64, b: I64)
    requires b != 0
    ensures -TWO_63 <= TruncDiv(a, b) <= TWO_63
    ensures TruncDiv(a, b) == TWO_63 <==> a == -TWO_63 && b == -1
  {
    hide Ratio;
    MagnitudeBound(Abs(a), Abs(b));
  }

  lemma MagnitudeBound(x: nat, y: nat)
    requires y > 0
    ensures 0 <= Ratio(x, y) <= x && (y >= 2 ==> 2 * Ratio(x, y) <= x) && (y == 1 ==> Ratio(x, y) == x)
  {
    DivShrinks(x, y);
    var q := x / y;
    DivTimes(x, y);
    assert y >= 2 ==> 2 * q <= q * y;
  }

  // ---------- Overlapping copies ----------

  /** memmove within one buffer: whatever the overlap, the old source bytes arrive. */
  method Memmove(mem: array<Byte>, d: nat, s: nat, n: nat)
    requires d + n <= mem.Length && s + n <= mem.Length
    modifies mem
    ensures mem[..] == Blit(old(mem[..]), d, old(mem[..])[s..s + n])
  {
    hide Blit;
    ghost var was := mem[..];
    if d < s {
      for i := 0 to n
        invariant forall k :: d <= k < d + i ==> mem[k] == was[k - d + s]
        invariant forall k :: 0 <= k < mem.Length && !(d <= k < d + i) ==> mem[k] == was[k]
      {
        mem[d + i] := mem[s + i];
      }
    } else if d > s {
      var i := n;
      while i > 0
        invariant 0 <= i <= n
        invariant forall k :: d + i <= k < d + n ==> mem[k] == was[k - d + s]
        invariant forall k :: 0 <= k < mem.Length && !(d + i <= k < d + n) ==> mem[k] == was[k]
      {
        i := i - 1;
        mem[d + i] := mem[s + i];
      }
    }
    MovedIsBlit(mem[..], was, d, s, n);
  }

  lemma MovedIsBlit(now: seq<Byte>, was: seq<Byte>, d: nat, s: nat, n: nat)
    requires d + n <= |was| && s + n <= |was| == |now|
    requires forall k :: d <= k < d + n ==> now[k] == was[k - d + s]
    requires forall k :: 0 <= k < |now| && !(d <= k < d + n) ==> now[k] == was[k]
    ensures now == Blit(was, d, was[s..s + n])
  {
  }
}
