/** What the freestanding runtime's conversions mean, in plain numbers. */
module WasmLaws {
  import opened Bits
  import opened WasmShim
  import opened WasmNumbers

  // ---------- Wrapping ----------

  function Shifted(x: int, k: int, m: nat): int { x + k * m }

  /** Equal up to a multiple of m. */
  ghost predicate Congruent(a: int, b: int, m: nat) { exists k: int :: a == Shifted(b, k, m) }

  /** A quotient that is cut to 64 bits is the number in range with the same low bits. */
  lemma WrappedIs(x: int)
    ensures -0x8000_0000_0000_0000 <= Wrapped(x) < 0x8000_0000_0000_0000
    ensures Congruent(Wrapped(x), x, 0x1_0000_0000_0000_0000)
  {
    var q := x / 0x1_0000_0000_0000_0000;
    assert x == q * 0x1_0000_0000_0000_0000 + x % 0x1_0000_0000_0000_0000;
    var k := if Wrapped(x) < 0 then -q - 1 else -q;
    assert Wrapped(x) == Shifted(x, k, 0x1_0000_0000_0000_0000);
  }

  // ---------- Printing ----------

  const LOWER := "0123456789abcdef"
  const UPPER := "0123456789ABCDEF"

  lemma CharIs(d: nat, upper: bool)
    requires d < 16
    ensures DigitChar(d, upper) == if upper then UPPER[d] else LOWER[d]
  {
  }

  function Power(b: nat, n: nat): (p: nat)
    ensures b > 0 ==> p > 0
  {
    if n == 0 then 1 else b * Power(b, n - 1)
  }

  /** Digit k of v in the given base, counted from the right. */
  function DigitOfValue(v: nat, base: nat, k: nat): nat
    requires base > 0
  {
    v / Power(base, k) % base
  }

  lemma DigitShift(v: nat, base: nat, k: nat)
    requires base > 0
    ensures DigitOfValue(v / base, base, k) == DigitOfValue(v, base, k + 1)
  {
    DivDiv(v, base, Power(base, k));
  }

  lemma DivDiv(v: nat, a: nat, b: nat)
    requires a > 0 && b > 0
    ensures a * b > 0 && v / a / b == v / (a * b)
  {
    var t := v / a;
    var u := t / b;
    Euclid(v, a);
    Euclid(t, b);
    assert t == u * b + t % b;
    assert v == (u * b + t % b) * a + v % a;
    Rearranged(u, b, t % b, a, v % a);
    DivUnique(v, a * b, u, t % b * a + v % a);
  }

  lemma Euclid(v: nat, a: nat)
    requires a > 0
    ensures v / a >= 0 && v == v / a * a + v % a && 0 <= v % a < a
  {
    DivShrinks(v, a);
  }

  lemma Rearranged(u: nat, b: nat, r: nat, a: nat, s: nat)
    requires r < b && s < a
    ensures (u * b + r) * a + s == u * (a * b) + (r * a + s)
    ensures 0 <= r * a + s < a * b
  {
    assert r * a <= (b - 1) * a;
  }

  /** Every printed character is the digit that belongs there, and there are no more than needed. */
  lemma {:induction false} RenderIs(v: nat, base: nat, upper: bool, k: nat)
    requires 2 <= base <= 16 && k < |Render(v, base, upper)|
    ensures var r := Render(v, base, upper);
            && 0 <= DigitOfValue(v, base, k) < 16
            && r[|r| - 1 - k] == (if upper then UPPER else LOWER)[DigitOfValue(v, base, k)]
            && (v > 0 ==> r[0] != '0')
    decreases v
  {
    hide DigitChar, UPPER, LOWER, DigitOfValue;
    var r := Render(v, base, upper);
    NoLeadingZero(v, base, upper);
    if v < base {
      LastDigit(v, base);
      CharIs(v, upper);
      Small(v, base);
    } else {
      DivSmaller(v, base);
      LastDigit(v, base);
      CharIs(v % base, upper);
      if k > 0 {
        RenderIs(v / base, base, upper, k - 1);
        DigitShift(v, base, k - 1);
      }
    }
  }

  lemma LastDigit(v: nat, base: nat)
    requires base > 0
    ensures DigitOfValue(v, base, 0) == v % base
  {
  }

  // ---------- Parsing ----------

  /** The value of a digit character. */
  predicate IsDigit(c: char, d: nat) {
    var n := c as int;
    (48 <= n <= 57 && d == n - 48) || (97 <= n <= 102 && d == n - 87) || (65 <= n <= 70 && d == n - 55)
  }

  lemma DigitOfIs(c: char, d: nat)
    ensures DigitOf(c) == Some(d) <==> IsDigit(c, d)
  {
  }

  /** The characters are digits of the base, with these values. */
  predicate Spells(text: string, ds: seq<nat>, base: nat) {
    |text| == |ds| && forall i :: 0 <= i < |ds| ==> IsDigit(text[i], ds[i]) && ds[i] < base
  }

  /** The number that digits stand for: each one times the power of its place. */
  function ValueOf(ds: seq<nat>, base: nat): nat {
    if ds == [] then 0 else ds[0] * Power(base, |ds| - 1) + ValueOf(ds[1..], base)
  }

  predicate NoDigit(rest: string, base: nat) { rest == "" || forall d :: 0 <= d < base ==> !IsDigit(rest[0], d) }

  lemma ModTimes(x: nat, k: nat, v: nat, m: nat)
    requires m > 0
    ensures 0 <= x % m && (x % m * k + v) % m == (x * k + v) % m
  {
    Euclid(x, m);
    var y := x % m * k + v;
    Euclid(y, m);
    assert x * k + v == (x / m * m + x % m) * k + v;
    Distribute(x / m, m, x % m, k);
    assert x * k + v == (x / m * k + y / m) * m + y % m;
    DivUnique(x * k + v, m, x / m * k + y / m, y % m);
  }

  lemma Distribute(q: nat, m: nat, r: nat, k: nat)
    ensures (q * m + r) * k == q * k * m + r * k
  {
  }

  /** Scanning digits one after the other gives their value, modulo the size of a word. */
  lemma {:induction false} ScanIs(s: string, p: nat, text: string, ds: seq<nat>, base: nat, size: nat, acc: nat)
    requires size > 0 && acc < size && Spells(text, ds, base)
    requires p + |text| <= |s| && s[p..p + |text|] == text && NoDigit(s[p + |text|..], base)
    ensures Scan(s, p, base, size, acc) == ((acc * Power(base, |ds|) + ValueOf(ds, base)) % size, p + |text|)
    decreases |text|
  {
    hide DigitOf, IsDigit;
    if text == "" {
      Small(acc, size);
      if p < |s| && DigitOf(s[p]).Some? { DigitOfIs(s[p], DigitOf(s[p]).value); }
    } else {
      assert s[p] == text[0];
      DigitOfIs(s[p], ds[0]);
      assert IsDigit(text[0], ds[0]) && ds[0] < base;
      var next := (acc * base + ds[0]) % size;
      assert s[p + 1..p + 1 + |text[1..]|] == text[1..];
      ScanIs(s, p + 1, text[1..], ds[1..], base, size, next);
      ScanNext(acc, base, ds, size);
    }
  }

  lemma ScanNext(acc: nat, base: nat, ds: seq<nat>, size: nat)
    requires ds != [] && size > 0
    ensures var next := (acc * base + ds[0]) % size;
            (next * Power(base, |ds| - 1) + ValueOf(ds[1..], base)) % size
            == (acc * Power(base, |ds|) + ValueOf(ds, base)) % size
  {
    var k, x := Power(base, |ds| - 1), acc * base + ds[0];
    ModTimes(x, k, ValueOf(ds[1..], base), size);
    assert x * k == acc * (base * k) + ds[0] * k;
  }

  // ---------- The whole of strtol ----------

  const BLANKS := {' ', '\t', '\n'}

  lemma {:induction false} SkipIs(s: string, p: nat, n: nat)
    requires p + n <= |s| && (forall i :: p <= i < p + n ==> s[i] in BLANKS) && (p + n < |s| ==> s[p + n] !in BLANKS)
    ensures SkipBlanks(s, p) == p + n
    decreases n
  {
    if n > 0 { SkipIs(s, p + 1, n - 1); }
  }

  /** A hexadecimal prefix. */
  predicate Marked(text: string) { |text| >= 2 && text[0] == '0' && text[1] in {'x', 'X'} }

  /** Which base is in force: a prefix is taken for 0 and 16, and 0 looks at the first digit otherwise. */
  predicate BaseIs(pre: string, after: string, asked: nat, base: nat) {
    if pre == "" then
      && (asked in {0, 16} ==> !Marked(after))
      && base == if asked != 0 then asked else if after != "" && after[0] == '0' then 8 else 10
    else pre in {"0x", "0X"} && asked in {0, 16} && base == 16
  }

  /** A number as text: blanks, a sign, a prefix, digits, and what does not continue it. */
  datatype Numeral = Numeral(blanks: string, sign: string, pre: string, text: string, rest: string) {
    function Text(): string { blanks + (sign + (pre + (text + rest))) }

    predicate Valid(ds: seq<nat>, asked: nat, base: nat) {
      && (forall i :: 0 <= i < |blanks| ==> blanks[i] in BLANKS) && sign in {"", "-", "+"}
      && BaseIs(pre, text + rest, asked, base) && Spells(text, ds, base) && NoDigit(rest, base)
      && (text == "" ==> rest == "" || rest[0] !in {' ', '\t', '\n', '-', '+'})
    }
  }

  lemma DigitIsPlain(c: char, d: nat)
    requires IsDigit(c, d)
    ensures c !in {' ', '\t', '\n', '-', '+'}
  {
  }

  /** The first character after the blanks and after the sign. */
  lemma Heads(n: Numeral, ds: seq<nat>, asked: nat, base: nat)
    requires n.Valid(ds, asked, base)
    ensures var after := n.pre + (n.text + n.rest); after != "" ==> after[0] !in {' ', '\t', '\n', '-', '+'}
  {
    if n.text != "" { DigitIsPlain(n.text[0], ds[0]); }
  }

  lemma Places(n: Numeral, ds: seq<nat>, asked: nat, base: nat)
    requires n.Valid(ds, asked, base)
    ensures |n.blanks| + |n.sign| <= |n.Text()|
    ensures var s, p := n.Text(), |n.blanks|;
            && SkipBlanks(s, 0) == p && (CharAt(s, p) == '-' <==> n.sign == "-")
            && (CharAt(s, p) in {'-', '+'} <==> n.sign != "") && s[p + |n.sign|..] == n.pre + (n.text + n.rest)
  {
    hide IsDigit, BaseIs, NoDigit;
    Heads(n, ds, asked, base);
    var s, after := n.Text(), n.pre + (n.text + n.rest);
    forall i | 0 <= i < |n.blanks| ensures s[i] in BLANKS { assert s[i] == n.blanks[i]; }
    if n.sign + after != "" { assert s[|n.blanks|] == (n.sign + after)[0]; }
    SkipIs(s, 0, |n.blanks|);
  }

  /** The prefix is passed over. */
  lemma PrefixIs(s: string, p: nat, pre: string, after: string, asked: nat, base: nat)
    requires p <= |s| && s[p..] == pre + after && BaseIs(pre, after, asked, base)
    ensures Prefix(s, p, asked) == (base, p + |pre|) && s[p + |pre|..] == after
  {
    assert |s| == p + |pre| + |after|;
    assert forall i :: 0 <= i < |pre| + |after| ==> s[p + i] == (pre + after)[i];
    if pre == "" { assert forall i :: 0 <= i < |after| ==> s[p + i] == after[i]; }
  }

  function Signed(v: nat, negative: bool): int { if negative then -(v as int) else v }

  lemma LongIs(u: nat, size: nat)
    requires u < size && size % 2 == 0
    ensures -(size / 2) <= AsLong(u, size) < size / 2 && Congruent(AsLong(u, size), u, size)
  {
    assert AsLong(u, size) == Shifted(u, if u < size / 2 then 0 else -1, size);
  }

  lemma NegatedLongIs(u: nat, size: nat)
    requires u < size && size % 2 == 0
    ensures var v := AsLong((size - AsLong(u, size)) % size, size);
            -(size / 2) <= v < size / 2 && Congruent(v, Signed(u, true), size)
  {
    var w := size - AsLong(u, size);
    if u == 0 {
      SelfMod(size);
      assert AsLong(0, size) == Shifted(0, 0, size);
    } else if u < size / 2 {
      Small(size - u, size);
      LongOf(size - u, size);
    } else {
      OnePast(size - u, size);
      LongOf(size - u, size);
    }
  }

  lemma LongOf(w: nat, size: nat)
    requires 0 < w < size && size % 2 == 0
    ensures -(size / 2) <= AsLong(w, size) < size / 2 && Congruent(AsLong(w, size), w - size, size)
  {
    assert AsLong(w, size) == Shifted(w - size, if w < size / 2 then 1 else 0, size);
  }

  lemma CongruentMod(a: int, neg: bool, v: nat, size: nat)
    requires size > 0 && Congruent(a, Signed(v % size, neg), size)
    ensures Congruent(a, Signed(v, neg), size)
  {
    var k :| a == Shifted(Signed(v % size, neg), k, size);
    Euclid(v, size);
    var q := v / size;
    assert (k + q) * size == k * size + q * size && (k - q) * size == k * size - q * size;
    assert a == Shifted(Signed(v, neg), if neg then k + q else k - q, size);
  }

  lemma Cut(s: string, at: nat, text: string, rest: string)
    requires at <= |s| && s[at..] == text + rest
    ensures at + |text| <= |s| && s[at..at + |text|] == text && s[at + |text|..] == rest
  {
    assert s[at..at + |text|] == s[at..][..|text|];
    assert s[at + |text|..] == s[at..][|text|..];
  }

  /** Where the digits begin, and what scanning them gives. */
  lemma DigitsScanned(n: Numeral, ds: seq<nat>, asked: nat, base: nat, size: nat)
    requires n.Valid(ds, asked, base) && size > 0
    ensures var s, p := n.Text(), |n.blanks| + |n.sign|;
            && Prefix(s, p, asked) == (base, p + |n.pre|)
            && Scan(s, p + |n.pre|, base, size, 0) == (ValueOf(ds, base) % size, p + |n.pre| + |n.text|)
  {
    hide Scan, IsDigit, DigitOf, BaseIs, Prefix, NoDigit, ValueOf, Numeral.Text, SkipBlanks;
    var s, p := n.Text(), |n.blanks| + |n.sign|;
    Places(n, ds, asked, base);
    PrefixIs(s, p, n.pre, n.text + n.rest, asked, base);
    Cut(s, p + |n.pre|, n.text, n.rest);
    ScanIs(s, p + |n.pre|, n.text, ds, base, size, 0);
  }

  lemma StrtolParts(n: Numeral, ds: seq<nat>, asked: nat, base: nat, size: nat)
    requires n.Valid(ds, asked, base) && size > 0
    ensures var u := ValueOf(ds, base) % size;
            Strtol(n.Text(), asked, size)
            == if n.text == "" then (0, 0)
               else (if n.sign == "-" then AsLong((size - AsLong(u, size)) % size, size) else AsLong(u, size),
                     |n.blanks| + |n.sign| + |n.pre| + |n.text|)
  {
    hide SkipBlanks, Scan, AsLong, Spells, BaseIs, Prefix, NoDigit, ValueOf, Numeral.Text;
    Places(n, ds, asked, base);
    DigitsScanned(n, ds, asked, base, size);
    assert |n.sign| == if n.sign == "" then 0 else 1;
  }

  /**
    strtol of such a text: the number that the digits stand for, negated after a minus sign and cut
    to a long of `size` values, and the end of the digits; without digits 0 and the very beginning.
   */
  lemma StrtolIs(n: Numeral, ds: seq<nat>, asked: nat, base: nat, size: nat)
    requires n.Valid(ds, asked, base) && size > 0 && size % 2 == 0
    ensures var (v, end) := Strtol(n.Text(), asked, size);
            if n.text == "" then v == 0 && end == 0
            else && end == |n.blanks| + |n.sign| + |n.pre| + |n.text|
                 && -(size / 2) <= v < size / 2 && Congruent(v, Signed(ValueOf(ds, base), n.sign == "-"), size)
  {
    hide Strtol, Numeral.Valid, AsLong, ValueOf, Congruent;
    var u := ValueOf(ds, base) % size;
    StrtolParts(n, ds, asked, base, size);
    LongIs(u, size);
    NegatedLongIs(u, size);
    CongruentMod(if n.sign == "-" then AsLong((size - AsLong(u, size)) % size, size) else AsLong(u, size),
                 n.sign == "-", ValueOf(ds, base), size);
  }
}
