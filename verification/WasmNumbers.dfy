/** Number printing (ufmt) and parsing (strtol) of the freestanding runtime. */
module WasmNumbers {
  import opened Bits

  // ---------- Printing ----------

  function DigitChar(d: nat, upper: bool): char
    requires d < 16
  {
    if d < 10 then '0' + d as char else if upper then 'A' + (d - 10) as char else 'a' + (d - 10) as char
  }

  /** The digits of v, most significant first. */
  function Render(v: nat, base: nat, upper: bool): (r: string)
    requires 2 <= base <= 16
    ensures r != []
    decreases v
  {
    if v < base then [DigitChar(v, upper)]
    else
      DivSmaller(v, base);
      Render(v / base, base, upper) + [DigitChar(v % base, upper)]
  }

  lemma DivSmaller(v: nat, base: nat)
    requires base >= 2 && v >= 1
    ensures 0 <= v / base < v
  {
    assert v == base * (v / base) + v % base;
    if v / base > 0 { assert base * (v / base) >= 2 * (v / base); }
  }

  function Reversed(s: string): string { if s == [] then [] else Reversed(s[1..]) + [s[0]] }

  /** At most 22 digits are needed from base 8 on, so the scratch buffer of 24 is enough. */
  lemma {:induction false} RenderLength(v: nat, base: nat, upper: bool, n: nat)
    requires 8 <= base <= 16 && v < Pow8(n) && n > 0
    ensures |Render(v, base, upper)| <= n
    decreases n
  {
    if v >= base {
      DivEighth(v, base);
      assert n > 1;
      RenderLength(v / base, base, upper, n - 1);
    }
  }

  function Pow8(n: nat): nat { if n == 0 then 1 else 8 * Pow8(n - 1) }

  lemma DivEighth(v: nat, base: nat)
    requires base >= 8
    ensures 8 * (v / base) <= v && v / base >= 0
  {
    assert v == base * (v / base) + v % base;
    assert base * (v / base) >= 8 * (v / base);
  }

  lemma Pow8Of22()
    ensures Pow8(22) > TWO_64
  {
    assert Pow8(5) == 0x8000 && Pow8(10) == 0x4000_0000;
    assert Pow8(15) == 0x2000_0000_0000 && Pow8(20) == 0x1000_0000_0000_0000;
  }

  /** Digits in the order they are produced, least significant first. */
  function Produced(v: nat, base: nat, upper: bool): string
    requires 2 <= base <= 16
    decreases v
  {
    if v == 0 then []
    else
      DivSmaller(v, base);
      [DigitChar(v % base, upper)] + Produced(v / base, base, upper)
  }

  lemma {:induction false} ProducedReversed(v: nat, base: nat, upper: bool)
    requires 2 <= base <= 16 && v > 0
    ensures Reversed(Produced(v, base, upper)) == Render(v, base, upper)
    decreases v
  {
    DivSmaller(v, base);
    var rest := Produced(v / base, base, upper);
    assert Produced(v, base, upper)[1..] == rest;
    if v < base {
      SmallQuotient(v, base);
      assert Produced(v / base, base, upper) == [];
    } else {
      LargeQuotient(v, base);
      ProducedReversed(v / base, base, upper);
    }
  }

  lemma SmallQuotient(v: nat, base: nat)
    requires v < base
    ensures v / base == 0 && v % base == v
  {
  }

  lemma LargeQuotient(v: nat, base: nat)
    requires v >= base > 0
    ensures v / base > 0
  {
    assert v == base * (v / base) + v % base;
  }

  lemma {:induction false} ReversedAt(s: string, k: nat)
    requires k < |s|
    ensures |Reversed(s)| == |s| && Reversed(s)[k] == s[|s| - 1 - k]
  {
    if |s| > 1 { ReversedAt(s[1..], if k < |s| - 1 then k else 0); }
  }

  /** ufmt: digits into a scratch buffer, then out in reverse. */
  method Ufmt(b: array<char>, v: nat, base: nat, upper: bool) returns (n: nat)
    requires 8 <= base <= 16 && v < TWO_64 && b.Length >= 24
    modifies b
    ensures n == |Render(v, base, upper)| <= 22
    ensures b[..] == Render(v, base, upper) + old(b[..])[n..]
  {
    hide DigitChar, Reversed, Render, Produced;
    Pow8Of22();
    RenderLength(v, base, upper, 22);
    var t := new char[24](_ => '0');
    if v == 0 {
      t[0] := DigitChar(0, upper);
      n := 1;
      RenderZero(base, upper);
      ReverseOne(t[0]);
      assert t[..1] == [t[0]];
    } else {
      ProducedReversed(v, base, upper);
      ProducedLength(v, base, upper);
      n := Scratch(t, v, base, upper);
    }
    ReverseOut(b, t, n);
  }

  lemma RenderZero(base: nat, upper: bool)
    requires 2 <= base <= 16
    ensures Render(0, base, upper) == [DigitChar(0, upper)]
  {
  }

  lemma ReverseOne(c: char)
    ensures Reversed([c]) == [c]
  {
  }

  /** The digits, least significant first. */
  method Scratch(t: array<char>, v: nat, base: nat, upper: bool) returns (i: nat)
    requires 2 <= base <= 16 && |Produced(v, base, upper)| <= t.Length
    modifies t
    ensures i <= t.Length && t[..i] == Produced(v, base, upper)
  {
    hide DigitChar, Produced;
    ghost var all := Produced(v, base, upper);
    i := 0;
    var rest := v;
    while rest > 0
      invariant 0 <= rest && 0 <= i <= t.Length && all == t[..i] + Produced(rest, base, upper)
      decreases rest
    {
      NextProduced(rest, base, upper);
      t[i] := DigitChar(rest % base, upper);
      assert t[..i + 1] == t[..i] + [t[i]];
      i := i + 1;
      rest := rest / base;
    }
    NoneProduced(base, upper);
  }

  /** The first i characters of t, last one first. */
  method ReverseOut(b: array<char>, t: array<char>, i: nat)
    requires b != t && i <= t.Length && i <= b.Length
    modifies b
    ensures b[..] == Reversed(t[..i]) + old(b[..])[i..]
  {
    ghost var w, was := t[..i], b[..];
    var n, k := 0, i;
    while k > 0
      invariant 0 <= k <= i && n == i - k && t[..i] == w
      invariant forall j :: 0 <= j < n ==> b[j] == w[i - 1 - j]
      invariant forall j :: n <= j < b.Length ==> b[j] == was[j]
    {
      k := k - 1;
      b[n] := t[k];
      n := n + 1;
    }
    ReversedPrefix(b[..], w, was);
  }

  lemma ReversedPrefix(now: string, w: string, was: string)
    requires |w| <= |was| == |now|
    requires forall j :: 0 <= j < |w| ==> now[j] == w[|w| - 1 - j]
    requires forall j :: |w| <= j < |now| ==> now[j] == was[j]
    ensures now == Reversed(w) + was[|w|..]
  {
    hide Reversed;
    ReversedLength(w);
    forall j | 0 <= j < |w| ensures now[j] == Reversed(w)[j] { ReversedAt(w, j); }
  }

  lemma ReversedLength(w: string)
    ensures |Reversed(w)| == |w|
  {
    if w != [] { ReversedAt(w, 0); }
  }

  lemma NextProduced(v: nat, base: nat, upper: bool)
    requires 2 <= base <= 16 && v > 0
    ensures 0 <= v / base < v
    ensures Produced(v, base, upper) == [DigitChar(v % base, upper)] + Produced(v / base, base, upper)
  {
    DivSmaller(v, base);
  }

  lemma NoneProduced(base: nat, upper: bool)
    requires 2 <= base <= 16
    ensures Produced(0, base, upper) == []
  {
  }

  lemma {:induction false} ProducedLength(v: nat, base: nat, upper: bool)
    requires 8 <= base <= 16 && 0 < v < TWO_64
    ensures |Produced(v, base, upper)| == |Render(v, base, upper)|
  {
    ProducedReversed(v, base, upper);
    if Produced(v, base, upper) != [] { ReversedAt(Produced(v, base, upper), 0); }
  }

  // ---------- Parsing ----------

  /** The character at p; past the end, the terminating NUL. */
  function CharAt(s: string, p: nat): char { if p < |s| then s[p] else '\0' }

  function SkipBlanks(s: string, p: nat): nat
    decreases |s| - p
  {
    if p < |s| && s[p] in {' ', '\t', '\n'} then SkipBlanks(s, p + 1) else p
  }

  function DigitOf(c: char): Option<nat> {
    if '0' <= c <= '9' then Some(c as nat - '0' as nat)
    else if 'a' <= c <= 'f' then Some(c as nat - 'a' as nat + 10)
    else if 'A' <= c <= 'F' then Some(c as nat - 'A' as nat + 10)
    else None
  }

  predicate DigitIn(c: char, base: nat) { DigitOf(c).Some? && DigitOf(c).value < base }

  /** The value of the digits from p on, modulo the word size, and where they end. */
  function Scan(s: string, p: nat, base: nat, size: nat, acc: nat): (nat, nat)
    requires size > 0
    decreases |s| - p
  {
    if p < |s| && DigitIn(s[p], base) then Scan(s, p + 1, base, size, (acc * base + DigitOf(s[p]).value) % size)
    else (acc, p)
  }

  predicate HexPrefix(s: string, p: nat) { CharAt(s, p) == '0' && CharAt(s, p + 1) in {'x', 'X'} }

  /** The base in force and where the digits start. */
  function Prefix(s: string, p: nat, base: nat): (nat, nat) {
    if base == 0 then
      if HexPrefix(s, p) then (16, p + 2) else if CharAt(s, p) == '0' then (8, p) else (10, p)
    else if base == 16 && HexPrefix(s, p) then (16, p + 2)
    else (base, p)
  }

  function AsLong(u: int, size: nat): int { if u < size / 2 then u else u - size }

  /** strtol for a long of `size` values: the result, and the index that *end is set to. */
  function Strtol(s: string, base: nat, size: nat): (int, nat)
    requires size > 0
  {
    var p0 := SkipBlanks(s, 0);
    var neg := CharAt(s, p0) == '-';
    var p1 := if CharAt(s, p0) in {'-', '+'} then p0 + 1 else p0;
    var (b, p) := Prefix(s, p1, base);
    var (acc, end) := Scan(s, p, b, size, 0);
    if end == p then (0, 0)
    else (if neg then AsLong((size - AsLong(acc, size)) % size, size) else AsLong(acc, size), end)
  }

  method RunSkip(s: string) returns (p: nat)
    ensures p == SkipBlanks(s, 0)
  {
    p := 0;
    while p < |s| && s[p] in {' ', '\t', '\n'}
      invariant p <= |s| && SkipBlanks(s, 0) == SkipBlanks(s, p)
    {
      p := p + 1;
    }
  }

  method RunScan(s: string, from: nat, base: nat, size: nat) returns (acc: nat, p: nat)
    requires size > 0
    ensures (acc, p) == Scan(s, from, base, size, 0)
  {
    hide DigitOf;
    acc, p := 0, from;
    while p < |s| && DigitIn(s[p], base)
      invariant Scan(s, from, base, size, 0) == Scan(s, p, base, size, acc)
      decreases |s| - p
    {
      acc := (acc * base + DigitOf(s[p]).value) % size;
      p := p + 1;
    }
  }

  /** The same, as the source runs it. */
  method RunStrtol(s: string, base: nat, size: nat) returns (v: int, end: nat)
    requires size > 0
    ensures (v, end) == Strtol(s, base, size)
  {
    hide SkipBlanks, Scan, AsLong, DigitOf;
    var p := RunSkip(s);
    var neg := CharAt(s, p) == '-';
    if neg || CharAt(s, p) == '+' { p := p + 1; }
    var b := base;
    if base == 0 {
      if HexPrefix(s, p) {
        b := 16;
        p := p + 2;
      } else if CharAt(s, p) == '0' {
        b := 8;
      } else {
        b := 10;
      }
    } else if base == 16 && HexPrefix(s, p) {
      p := p + 2;
    }
    var acc, stop := RunScan(s, p, b, size);
    if stop == p { return 0, 0; }
    v := if neg then AsLong((size - AsLong(acc, size)) % size, size) else AsLong(acc, size);
    end := stop;
  }

  // ---------- Printing and parsing undo each other ----------

  lemma DigitRoundTrip(d: nat, upper: bool)
    requires d < 16
    ensures DigitOf(DigitChar(d, upper)) == Some(d)
    ensures DigitChar(d, upper) !in {' ', '\t', '\n', '-', '+', 'x', 'X', '\0'} && (DigitChar(d, upper) == '0' <==> d == 0)
  {
  }

  /** Scanning a printed number, continued by something that is no digit. */
  lemma {:induction false} ScanRender(v: nat, base: nat, upper: bool, before: string, rest: string, size: nat)
    requires 2 <= base <= 16 && v < size
    ensures Scan(before + Render(v, base, upper) + rest, |before|, base, size, 0)
            == Scan(before + Render(v, base, upper) + rest, |before| + |Render(v, base, upper)|, base, size, v)
    decreases v
  {
    hide DigitOf, DigitChar;
    var r := Render(v, base, upper);
    var s := before + r + rest;
    if v < base {
      DigitRoundTrip(v, upper);
      assert s[|before|] == DigitChar(v, upper);
      Small(v, size);
    } else {
      DivSmaller(v, base);
      DigitRoundTrip(v % base, upper);
      var c := [DigitChar(v % base, upper)];
      ScanRender(v / base, base, upper, before, c + rest, size);
      assert before + Render(v / base, base, upper) + (c + rest) == s;
      assert s[|before| + |r| - 1] == c[0];
      Recompose(v, base);
      Small(v, size);
    }
  }

  lemma Small(v: nat, size: nat)
    requires v < size
    ensures v % size == v
  {
  }

  lemma Recompose(v: nat, base: nat)
    requires base > 0
    ensures v / base * base + v % base == v
  {
  }

  /** The first digit of a number is 0 only for 0 itself. */
  lemma {:induction false} NoLeadingZero(v: nat, base: nat, upper: bool)
    requires 2 <= base <= 16
    ensures var r := Render(v, base, upper);
            && r[0] !in {' ', '\t', '\n', '-', '+'} && (r[0] == '0' <==> v == 0) && (v == 0 ==> |r| == 1)
            && (|r| > 1 ==> r[1] !in {'x', 'X'})
    decreases v
  {
    hide DigitOf, DigitChar;
    if v < base {
      DigitRoundTrip(v, upper);
    } else {
      DivSmaller(v, base);
      LargeQuotient(v, base);
      NoLeadingZero(v / base, base, upper);
      DigitRoundTrip(v % base, upper);
    }
  }

  /** Text after a number that does not continue it. */
  predicate Stops(rest: string, base: nat) { rest == [] || (!DigitIn(rest[0], base) && rest[0] !in {'x', 'X'}) }

  /** Where parsing a printed number gets to before the digits are read. */
  lemma HeadOfNumber(v: nat, base: nat, asked: nat, upper: bool, rest: string)
    requires 2 <= base <= 16 && Stops(rest, base)
    requires asked == base || (asked == 0 && base == 10 && v > 0)
    ensures var s := Render(v, base, upper) + rest;
            SkipBlanks(s, 0) == 0 && CharAt(s, 0) !in {'-', '+'} && Prefix(s, 0, asked) == (base, 0)
  {
    NoLeadingZero(v, base, upper);
    var r := Render(v, base, upper);
    var s := r + rest;
    assert s[0] == r[0];
    if |s| > 1 { assert s[1] == if |r| > 1 then r[1] else rest[0]; }
  }

  /**
    strtol reads back what ufmt wrote, for every value a long can hold: in any base when that
    base is asked for, and in decimal also when the base is left to be guessed.
   */
  lemma ParseUndoesPrint(v: nat, base: nat, asked: nat, upper: bool, rest: string, size: nat)
    requires 8 <= base <= 16 && v < size / 2 && Stops(rest, base)
    requires asked == base || (asked == 0 && base == 10 && (v == 0 ==> Stops(rest, 8)))
    ensures Strtol(Render(v, base, upper) + rest, asked, size) == (v, |Render(v, base, upper)|)
  {
    hide DigitOf, DigitChar;
    var r := Render(v, base, upper);
    var s := r + rest;
    assert [] + r + rest == s;
    if asked == 0 && v == 0 {
      ZeroAnyBase(rest, upper, size);
    } else {
      HeadOfNumber(v, base, asked, upper, rest);
      ScanRender(v, base, upper, [], rest, size);
      assert |r| < |s| ==> s[|r|] == rest[0];
      assert Scan(s, |r|, base, size, v) == (v, |r|);
    }
  }

  /** A lone 0 is taken for octal, and read as 0. */
  lemma ZeroAnyBase(rest: string, upper: bool, size: nat)
    requires size > 1 && Stops(rest, 8)
    ensures Strtol(Render(0, 10, upper) + rest, 0, size) == (0, 1)
  {
    var s := Render(0, 10, upper) + rest;
    DigitRoundTrip(0, upper);
    assert s[0] == '0' && (|s| > 1 ==> s[1] == rest[0]);
    assert Prefix(s, 0, 0) == (8, 0);
    Small(0, size);
    assert Scan(s, 0, 8, size, 0) == Scan(s, 1, 8, size, 0);
    assert Scan(s, 1, 8, size, 0) == (0, 1);
  }

  /** A minus sign in front gives the negative value, down to the smallest long. */
  lemma ParseUndoesNegative(v: nat, base: nat, upper: bool, rest: string, size: nat)
    requires 8 <= base <= 16 && size > 0 && v <= size / 2 && size % 2 == 0 && Stops(rest, base)
    ensures Strtol("-" + Render(v, base, upper) + rest, base, size) == (-(v as int), 1 + |Render(v, base, upper)|)
  {
    hide DigitOf, DigitChar;
    var r := Render(v, base, upper);
    var s := "-" + r + rest;
    NoLeadingZero(v, base, upper);
    assert s[0] == '-' && s[1] == r[0];
    if |s| > 2 { assert s[2] == if |r| > 1 then r[1] else rest[0]; }
    ScanRender(v, base, upper, "-", rest, size);
    assert 1 + |r| < |s| ==> s[1 + |r|] == rest[0];
    assert Scan(s, 1 + |r|, base, size, v) == (v, 1 + |r|);
    NegatedLong(v, size);
  }

  lemma NegatedLong(v: nat, size: nat)
    requires size > 0 && v <= size / 2 && size % 2 == 0
    ensures AsLong((size - AsLong(v, size)) % size, size) == -(v as int)
  {
    if v == size / 2 {
      assert size - AsLong(v, size) == size + v;
      OnePast(v, size);
    } else if v > 0 {
      Small(size - v, size);
    } else {
      SelfMod(size);
    }
  }

  lemma OnePast(v: nat, size: nat)
    requires v < size
    ensures (size + v) % size == v
  {
  }

  lemma SelfMod(size: nat)
    requires size > 0
    ensures size % size == 0
  {
  }
}
