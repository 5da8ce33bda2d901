/** Machine words as bounded integers, with the bitwise operators written out on their binary digits. */
module Bits {

  const WORD := 0x1_0000_0000
  const TWO_64 := 0x1_0000_0000_0000_0000

  type Word = w: int | 0 <= w < WORD

  type Byte = b: int | 0 <= b < 256

  datatype Option<+T> = None | Some(value: T)

  function Pow2(n: nat): (p: nat)
    ensures p > 0
  {
    if n == 0 then 1 else 2 * Pow2(n - 1)
  }

  /** The digit-wise combination of the low n bits of a and b. */
  function Bitwise(op: (nat, nat) -> nat, a: nat, b: nat, n: nat): (r: nat)
    requires forall x, y :: x < 2 && y < 2 ==> op(x, y) < 2
    ensures r < Pow2(n)
  {
    if n == 0 then 0 else op(a % 2, b % 2) + 2 * Bitwise(op, a / 2, b / 2, n - 1)
  }

  lemma Pow2Of32()
    ensures Pow2(32) == WORD
  {
    assert Pow2(8) == 256;
    assert Pow2(16) == 0x1_0000;
    assert Pow2(24) == 0x100_0000;
  }

  function BitAnd(x: nat, y: nat): nat { if x == 1 && y == 1 then 1 else 0 }

  function BitOr(x: nat, y: nat): nat { if x == 1 || y == 1 then 1 else 0 }

  function BitXor(x: nat, y: nat): nat { if x != y then 1 else 0 }

  function And(a: Word, b: Word): Word {
    Pow2Of32();
    Bitwise(BitAnd, a, b, 32)
  }

  function Or(a: Word, b: Word): Word {
    Pow2Of32();
    Bitwise(BitOr, a, b, 32)
  }

  function Xor(a: Word, b: Word): Word {
    Pow2Of32();
    Bitwise(BitXor, a, b, 32)
  }

  function Not(a: Word): Word { WORD - 1 - a }

  function Shl(a: Word, n: nat): Word { a * Pow2(n) % WORD }

  function Shr(a: Word, n: nat): (r: Word)
    ensures r <= a
  {
    DivShrinks(a, Pow2(n));
    a / Pow2(n)
  }

  lemma {:induction false} Pow2Sum(i: nat, j: nat)
    ensures Pow2(i + j) == Pow2(i) * Pow2(j)
  {
    if j > 0 { Pow2Sum(i, j - 1); }
  }

  /** Quotient and remainder are the only numbers of their kind. */
  lemma DivUnique(a: nat, b: nat, q: nat, r: nat)
    requires a == q * b + r && r < b
    ensures q == a / b && r == a % b
  {
    var d := q - a / b;
    var w: int := b;
    assert d * w == a % b - r;
    assert d >= 1 ==> d * w >= w;
    assert d <= -1 ==> d * w <= -w;
  }

  lemma DivShrinks(a: nat, d: nat)
    requires d > 0
    ensures 0 <= a / d <= a
  {
    DivTimes(a, d);
    MulGrows(a / d, d);
  }

  lemma DivTimes(a: nat, d: nat)
    requires d > 0
    ensures a / d >= 0 && a / d * d <= a
  {
  }

  lemma MulGrows(q: nat, d: nat)
    requires d > 0
    ensures q * d >= q
  {
  }

  /** Overwrite the bytes from `at` on. */
  function Blit(m: seq<Byte>, at: nat, src: seq<Byte>): (r: seq<Byte>)
    requires at + |src| <= |m|
    ensures |r| == |m|
  {
    m[..at] + src + m[at + |src|..]
  }

  /**
    The little-endian word at addr. Some bounds tests of the source compute addr + 4 modulo the
    word size and so let the last addresses through; such an access reads 0 here and writes nothing.
   */
  function Read32(mem: seq<Byte>, addr: nat): Word {
    if addr + 4 > |mem| then 0
    else mem[addr] as int + 0x100 * (mem[addr + 1] as int) + 0x1_0000 * (mem[addr + 2] as int)
         + 0x100_0000 * (mem[addr + 3] as int)
  }

  function Write32(mem: seq<Byte>, addr: nat, v: Word): (r: seq<Byte>)
    ensures |r| == |mem|
  {
    if addr + 4 > |mem| then mem
    else mem[addr := v % 0x100][addr + 1 := v / 0x100 % 0x100]
            [addr + 2 := v / 0x1_0000 % 0x100][addr + 3 := v / 0x100_0000]
  }

  lemma Digits(v: Word)
    ensures v == v % 0x100 + 0x100 * (v / 0x100 % 0x100) + 0x1_0000 * (v / 0x1_0000 % 0x100)
                 + 0x100_0000 * (v / 0x100_0000)
    ensures 0 <= v / 0x100_0000 < 0x100
  {
    assert v / 0x1_0000 == v / 0x100 / 0x100 && v / 0x100_0000 == v / 0x1_0000 / 0x100;
  }

  /** A word that was stored is read back; words elsewhere are as before. */
  lemma ReadWritten(mem: seq<Byte>, addr: nat, v: Word)
    requires addr + 4 <= |mem|
    ensures Read32(Write32(mem, addr, v), addr) == v
  {
    Digits(v);
  }

  lemma ReadElsewhere(mem: seq<Byte>, addr: nat, v: Word, other: nat)
    requires other + 4 <= addr || addr + 4 <= other
    ensures Read32(Write32(mem, addr, v), other) == Read32(mem, other)
  {
  }
}
