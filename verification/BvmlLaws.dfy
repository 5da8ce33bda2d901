/**
  What the linear-algebra calls leave in the host buffers, written out: the chain of
  multiply-adds behind every element, and ordinary arithmetic wherever nothing is rounded.
 */
module BvmlLaws {
  import opened Bits
  import opened BradVector
  import opened Bvrt
  import opened Kernels
  import opened BvmlSpec
  import Bvml

  // ---------- Matrix multiplication ----------

  /** The operands hold M x K, K x N and M x N elements, and (r, c) is an element of the result. */
  ghost predicate Shaped(A: seq<Word>, B: seq<Word>, C: seq<Word>, M: nat, N: nat, K: nat, r: nat, c: nat) {
    M * K <= |A| && K * N <= |B| && M * N <= |C| && r < M && c < N
  }

  /** The partial sums of row r of A and column c of B, one multiply-add after the other, from 0 on. */
  ghost predicate CellChain(F: Fpu, A: seq<Word>, B: seq<Word>, N: nat, K: nat, r: nat, c: nat, acc: seq<Word>) {
    && |acc| == K + 1 && acc[0] == 0
    && forall j :: 0 <= j < K && r * K + j < |A| && j * N + c < |B| ==>
         acc[j + 1] == (F.mad)(A[r * K + j], B[j * N + c], acc[j])
  }

  lemma InRange(m: nat, n: nat, r: nat, c: nat)
    requires r < m && c < n
    ensures r * n + c < m * n
  {
    assert (r + 1) * n <= m * n;
  }

  lemma NextSum(F: Fpu, A: seq<Word>, B: seq<Word>, N: nat, K: nat, r: nat, c: nat, acc: seq<Word>, j: nat)
    requires CellChain(F, A, B, N, K, r, c, acc) && j < K && r * K + j < |A| && j * N + c < |B|
    ensures |acc| == K + 1 && acc[0] == 0 && acc[j + 1] == (F.mad)(A[r * K + j], B[j * N + c], acc[j])
  {
  }

  lemma ChainLength(F: Fpu, A: seq<Word>, B: seq<Word>, N: nat, K: nat, r: nat, c: nat, acc: seq<Word>)
    requires CellChain(F, A, B, N, K, r, c, acc)
    ensures |acc| == K + 1 && acc[0] == 0
  {
  }

  lemma SumNext(p: Problem, r: nat, c: nat, j: nat)
    requires p.Valid() && r < p.m && c < p.n && j < p.k
    ensures r * p.k + j < |p.a| && j * p.n + c < |p.b|
    ensures p.Sum(r, c, j + 1) == (p.F.mad)(p.a[r * p.k + j], p.b[j * p.n + c], p.Sum(r, c, j))
  {
    InRange(p.m, p.k, r, j);
    InRange(p.k, p.n, j, c);
  }

  lemma {:induction false} SumIsChain(p: Problem, r: nat, c: nat, j: nat, acc: seq<Word>)
    requires p.Valid() && r < p.m && c < p.n && j <= p.k && CellChain(p.F, p.a, p.b, p.n, p.k, r, c, acc)
    ensures |acc| == p.k + 1 && p.Sum(r, c, j) == acc[j]
  {
    ChainLength(p.F, p.a, p.b, p.n, p.k, r, c, acc);
    if j > 0 {
      hide CellChain, Problem.Valid, Problem.Sum;
      SumNext(p, r, c, j - 1);
      NextSum(p.F, p.a, p.b, p.n, p.k, r, c, acc, j - 1);
      SumIsChain(p, r, c, j - 1, acc);
    }
  }

  lemma ChainOfPrefix(F: Fpu, A: seq<Word>, B: seq<Word>, M: nat, N: nat, K: nat, r: nat, c: nat, acc: seq<Word>)
    requires M * K <= |A| && K * N <= |B| && r < M && c < N && CellChain(F, A, B, N, K, r, c, acc)
    ensures CellChain(F, A[..M * K], B[..K * N], N, K, r, c, acc)
  {
    ChainLength(F, A, B, N, K, r, c, acc);
    var a, b := A[..M * K], B[..K * N];
    forall j | 0 <= j < K && r * K + j < |a| && j * N + c < |b|
      ensures acc[j + 1] == (F.mad)(a[r * K + j], b[j * N + c], acc[j])
    {
      hide CellChain;
      NextSum(F, A, B, N, K, r, c, acc, j);
    }
  }

  lemma SizesOf(M: nat, N: nat, K: nat)
    ensures Times(K, M) == M * K && Times(N, K) == K * N && Times(N, M) == M * N
  {
  }

  lemma GivenIs(F: Fpu, M: nat, N: nat, K: nat, alpha: Word, beta: Word, A: seq<Word>, B: seq<Word>, C: seq<Word>)
    requires M * K <= |A| && K * N <= |B| && M * N <= |C|
    ensures Times(K, M) <= |A| && Times(N, K) <= |B| && Times(N, M) <= |C|
    ensures var p := Bvml.Given(F, M, N, K, alpha, beta, A, B, C);
            p.Valid() && p == Problem(F, M, N, K, alpha, beta, A[..M * K], B[..K * N], C[..M * N])
  {
    SizesOf(M, N, K);
    hide Times;
  }

  lemma RowsElement(p: Problem, r: nat, c: nat)
    requires p.Valid() && r < p.m && c < p.n
    ensures r * p.n + c < |p.Rows(p.m)| && r * p.n + c < |p.c|
    ensures p.Rows(p.m)[r * p.n + c]
            == (p.F.binary)(ADD, (p.F.binary)(MUL, p.Sum(r, c, p.k), p.alpha), (p.F.binary)(MUL, p.beta, p.c[r * p.n + c]))
  {
    hide Problem.Rows, Problem.Sum;
    RowsAt(p, p.m, r, c);
    Commutes(r, p.n);
  }

  lemma Commutes(a: nat, b: nat)
    ensures a * b == b * a
  {
  }

  /**
    Element (r, c) of the matrix that the call leaves: ADD(MUL(sum, alpha), MUL(beta, old)), where
    the sum ends the chain of multiply-adds along row r of A and column c of B.
   */
  lemma GemmElement(F: Fpu, M: nat, N: nat, K: nat, alpha: Word, beta: Word,
                    A: seq<Word>, B: seq<Word>, C: seq<Word>, r: nat, c: nat, at: nat, acc: seq<Word>)
    requires Shaped(A, B, C, M, N, K, r, c) && at == r * N + c && CellChain(F, A, B, N, K, r, c, acc)
    ensures Times(K, M) <= |A| && Times(N, K) <= |B| && Times(N, M) <= |C|
    ensures var result := Bvml.Given(F, M, N, K, alpha, beta, A, B, C).Rows(M);
            && at < |result| && at < |C| && |acc| == K + 1
            && result[at] == (F.binary)(ADD, (F.binary)(MUL, acc[K], alpha), (F.binary)(MUL, beta, C[at]))
  {
    hide CellChain, Problem.Rows, Problem.Sum, Problem.Valid, Bvml.Given;
    GivenIs(F, M, N, K, alpha, beta, A, B, C);
    var p := Bvml.Given(F, M, N, K, alpha, beta, A, B, C);
    InRange(M, N, r, c);
    RowsElement(p, r, c);
    ChainOfPrefix(F, A, B, M, N, K, r, c, acc);
    SumIsChain(p, r, c, K, acc);
    ChainLength(F, A, B, N, K, r, c, acc);
  }

  /** There is such a chain. */
  lemma {:induction false} ChainExists(F: Fpu, A: seq<Word>, B: seq<Word>, C: seq<Word>, M: nat, N: nat, K: nat,
                                       r: nat, c: nat) returns (acc: seq<Word>)
    requires Shaped(A, B, C, M, N, K, r, c)
    ensures CellChain(F, A, B, N, K, r, c, acc)
  {
    acc := [0];
    for j := 0 to K
      invariant |acc| == j + 1 && acc[0] == 0
      invariant forall i :: 0 <= i < j && r * K + i < |A| && i * N + c < |B| ==>
                  acc[i + 1] == (F.mad)(A[r * K + i], B[i * N + c], acc[i])
    {
      InRange(M, K, r, j);
      InRange(K, N, j, c);
      acc := acc + [(F.mad)(A[r * K + j], B[j * N + c], acc[j])];
    }
  }

  // ---------- Where nothing is rounded ----------

  /** The unit is exact on every result in the set, when words are read as the numbers `val`. */
  ghost predicate ExactUnit(F: Fpu, val: Word -> real, exact: iset<real>) {
    && val(0) == 0.0
    && (forall x: Word, y: Word, z: Word :: ExactMad(F, val, exact, x, y, z))
    && (forall x: Word, y: Word :: ExactMul(F, val, exact, x, y))
    && (forall x: Word, y: Word :: ExactAdd(F, val, exact, x, y))
  }

  ghost predicate ExactMad(F: Fpu, val: Word -> real, exact: iset<real>, x: Word, y: Word, z: Word) {
    val(x) * val(y) + val(z) in exact ==> val((F.mad)(x, y, z)) == val(x) * val(y) + val(z)
  }

  ghost predicate ExactMul(F: Fpu, val: Word -> real, exact: iset<real>, x: Word, y: Word) {
    val(x) * val(y) in exact ==> val((F.binary)(MUL, x, y)) == val(x) * val(y)
  }

  ghost predicate ExactAdd(F: Fpu, val: Word -> real, exact: iset<real>, x: Word, y: Word) {
    val(x) + val(y) in exact ==> val((F.binary)(ADD, x, y)) == val(x) + val(y)
  }

  lemma MadIs(F: Fpu, val: Word -> real, exact: iset<real>, x: Word, y: Word, z: Word, t: real)
    requires ExactUnit(F, val, exact) && t == val(x) * val(y) + val(z) && t in exact
    ensures val((F.mad)(x, y, z)) == t
  {
    assert ExactMad(F, val, exact, x, y, z);
  }

  lemma MulIs(F: Fpu, val: Word -> real, exact: iset<real>, x: Word, y: Word, t: real)
    requires ExactUnit(F, val, exact) && t == val(x) * val(y) && t in exact
    ensures val((F.binary)(MUL, x, y)) == t
  {
    assert ExactMul(F, val, exact, x, y);
  }

  lemma AddIs(F: Fpu, val: Word -> real, exact: iset<real>, x: Word, y: Word, t: real)
    requires ExactUnit(F, val, exact) && t == val(x) + val(y) && t in exact
    ensures val((F.binary)(ADD, x, y)) == t
  {
    assert ExactAdd(F, val, exact, x, y);
  }

  /** The first j terms of the inner product of row r and column c. */
  function Inner(val: Word -> real, A: seq<Word>, B: seq<Word>, N: nat, K: nat, r: nat, c: nat, j: nat): real {
    if j == 0 then 0.0
    else Inner(val, A, B, N, K, r, c, j - 1)
         + if r * K + (j - 1) < |A| && (j - 1) * N + c < |B|
           then val(A[r * K + (j - 1)]) * val(B[(j - 1) * N + c]) else 0.0
  }

  /** One more term: the words that are multiplied. */
  lemma InnerNext(F: Fpu, val: Word -> real, A: seq<Word>, B: seq<Word>, C: seq<Word>, M: nat, N: nat, K: nat,
                  r: nat, c: nat, acc: seq<Word>, j: nat) returns (x: Word, y: Word)
    requires Shaped(A, B, C, M, N, K, r, c) && CellChain(F, A, B, N, K, r, c, acc) && j < K
    ensures |acc| == K + 1 && acc[j + 1] == (F.mad)(x, y, acc[j])
    ensures Inner(val, A, B, N, K, r, c, j + 1) == Inner(val, A, B, N, K, r, c, j) + val(x) * val(y)
  {
    hide Shaped, CellChain, Inner;
    Within(A, B, C, M, N, K, r, c, j);
    NextSum(F, A, B, N, K, r, c, acc, j);
    InnerStep(val, A, B, N, K, r, c, j);
    x, y := A[r * K + j], B[j * N + c];
  }

  lemma Within(A: seq<Word>, B: seq<Word>, C: seq<Word>, M: nat, N: nat, K: nat, r: nat, c: nat, j: nat)
    requires Shaped(A, B, C, M, N, K, r, c) && j < K
    ensures r * K + j < |A| && j * N + c < |B|
  {
    InRange(M, K, r, j);
    InRange(K, N, j, c);
  }

  lemma InnerStep(val: Word -> real, A: seq<Word>, B: seq<Word>, N: nat, K: nat, r: nat, c: nat, j: nat)
    requires r * K + j < |A| && j * N + c < |B|
    ensures Inner(val, A, B, N, K, r, c, j + 1)
            == Inner(val, A, B, N, K, r, c, j) + val(A[r * K + j]) * val(B[j * N + c])
  {
  }

  lemma {:induction false} ChainIsInner(F: Fpu, val: Word -> real, exact: iset<real>, A: seq<Word>, B: seq<Word>,
                                        C: seq<Word>, M: nat, N: nat, K: nat, r: nat, c: nat, acc: seq<Word>, j: nat)
    requires ExactUnit(F, val, exact) && Shaped(A, B, C, M, N, K, r, c) && j <= K
    requires CellChain(F, A, B, N, K, r, c, acc) && forall i :: 0 <= i <= K ==> Inner(val, A, B, N, K, r, c, i) in exact
    ensures |acc| == K + 1 && val(acc[j]) == Inner(val, A, B, N, K, r, c, j)
  {
    ChainLength(F, A, B, N, K, r, c, acc);
    ZeroIs(F, val, exact);
    if j > 0 {
      hide ExactUnit, Shaped, CellChain, Inner;
      ChainIsInner(F, val, exact, A, B, C, M, N, K, r, c, acc, j - 1);
      var x, y := InnerNext(F, val, A, B, C, M, N, K, r, c, acc, j - 1);
      MadIs(F, val, exact, x, y, acc[j - 1], Inner(val, A, B, N, K, r, c, j));
    }
  }

  lemma ZeroIs(F: Fpu, val: Word -> real, exact: iset<real>)
    requires ExactUnit(F, val, exact)
    ensures val(0) == 0.0
  {
  }

  /** alpha times the sum and beta times the old element; neither they nor their sum is rounded. */
  ghost predicate Scaled(val: Word -> real, exact: iset<real>, alpha: Word, sum: real, beta: Word, prior: Word,
                         scaled: real, kept: real) {
    && scaled == val(alpha) * sum && kept == val(beta) * val(prior)
    && scaled in exact && kept in exact && scaled + kept in exact
  }

  /** Without rounding every cell is alpha times the inner product plus beta times the old cell. */
  lemma ExactCell(F: Fpu, val: Word -> real, exact: iset<real>, M: nat, N: nat, K: nat, alpha: Word, beta: Word,
                  A: seq<Word>, B: seq<Word>, C: seq<Word>, r: nat, c: nat, at: nat, scaled: real, kept: real)
    requires ExactUnit(F, val, exact) && Shaped(A, B, C, M, N, K, r, c) && at == r * N + c < |C|
    requires forall i :: 0 <= i <= K ==> Inner(val, A, B, N, K, r, c, i) in exact
    requires Scaled(val, exact, alpha, Inner(val, A, B, N, K, r, c, K), beta, C[at], scaled, kept)
    ensures Times(K, M) <= |A| && Times(N, K) <= |B| && Times(N, M) <= |C|
    ensures var result := Bvml.Given(F, M, N, K, alpha, beta, A, B, C).Rows(M);
            at < |result| && val(result[at]) == scaled + kept
  {
    hide Problem.Rows, CellChain, Inner, ExactUnit, Times, Bvml.Given, Scaled, Shaped;
    var acc := ChainExists(F, A, B, C, M, N, K, r, c);
    GemmElement(F, M, N, K, alpha, beta, A, B, C, r, c, at, acc);
    ChainIsInner(F, val, exact, A, B, C, M, N, K, r, c, acc, K);
    Combined(F, val, exact, acc[K], Inner(val, A, B, N, K, r, c, K), alpha, beta, C[at], scaled, kept);
  }

  lemma Combined(F: Fpu, val: Word -> real, exact: iset<real>, last: Word, sum: real, alpha: Word, beta: Word,
                 prior: Word, scaled: real, kept: real)
    requires ExactUnit(F, val, exact) && val(last) == sum
    requires Scaled(val, exact, alpha, sum, beta, prior, scaled, kept)
    ensures val((F.binary)(ADD, (F.binary)(MUL, last, alpha), (F.binary)(MUL, beta, prior))) == scaled + kept
  {
    hide ExactUnit;
    MulIs(F, val, exact, last, alpha, scaled);
    MulIs(F, val, exact, beta, prior, kept);
    AddIs(F, val, exact, (F.binary)(MUL, last, alpha), (F.binary)(MUL, beta, prior), scaled + kept);
  }

  // ---------- Dot products and SAXPY ----------

  /** The partial sums of a dot product. */
  ghost predicate DotChain(F: Fpu, x: seq<Word>, y: seq<Word>, n: nat, acc: seq<Word>) {
    && |acc| == n + 1 && acc[0] == 0
    && forall j :: 0 <= j < n && j < |x| && j < |y| ==> acc[j + 1] == (F.mad)(x[j], y[j], acc[j])
  }

  /** The word that the dot product leaves ends the chain of multiply-adds over all pairs, in order. */
  lemma {:induction false} DotElement(F: Fpu, x: seq<Word>, y: seq<Word>, n: nat, acc: seq<Word>, j: nat)
    requires j <= n <= |x| && n <= |y| && DotChain(F, x, y, n, acc)
    ensures DotFold(F, x, y, j) == acc[j]
  {
    if j > 0 { DotElement(F, x, y, n, acc, j - 1); }
  }

  function Products(val: Word -> real, x: seq<Word>, y: seq<Word>, n: nat): real
    requires n <= |x| && n <= |y|
  {
    if n == 0 then 0.0 else Products(val, x, y, n - 1) + val(x[n - 1]) * val(y[n - 1])
  }

  /** Without rounding it is the inner product. */
  lemma {:induction false} ExactDot(F: Fpu, val: Word -> real, exact: iset<real>, x: seq<Word>, y: seq<Word>, n: nat)
    requires ExactUnit(F, val, exact) && n <= |x| && n <= |y|
    requires forall i :: 0 <= i <= n ==> Products(val, x, y, i) in exact
    ensures val(DotFold(F, x, y, n)) == Products(val, x, y, n)
  {
    hide ExactUnit;
    if n > 0 {
      ExactDot(F, val, exact, x, y, n - 1);
      MadIs(F, val, exact, x[n - 1], y[n - 1], DotFold(F, x, y, n - 1), Products(val, x, y, n));
    } else {
      ZeroIs(F, val, exact);
    }
  }

  /** Without rounding element i is a * x[i] + y[i]. */
  lemma ExactSaxpy(F: Fpu, val: Word -> real, exact: iset<real>, a: Word, x: seq<Word>, y: seq<Word>, n: nat, i: nat)
    requires ExactUnit(F, val, exact) && i < n <= |x| && n <= |y|
    requires val(a) * val(x[i]) in exact && val(a) * val(x[i]) + val(y[i]) in exact
    ensures val(Saxpy(F, a, x, y, n)[i]) == val(a) * val(x[i]) + val(y[i])
  {
    SaxpyAt(F, a, x, y, n, i);
    hide ExactUnit, Saxpy;
    MulIs(F, val, exact, a, x[i], val(a) * val(x[i]));
    AddIs(F, val, exact, (F.binary)(MUL, a, x[i]), y[i], val(a) * val(x[i]) + val(y[i]));
  }

  // ---------- The sizes that are tested ----------

  lemma RoundedTwice(a: nat, b: nat)
    requires a % 16 == 0
    ensures Align16(a + b) == a + (b + 15) / 16 * 16
  {
    assert a + b + 15 == a / 16 * 16 + (b + 15);
    assert (a + b + 15) / 16 == a / 16 + (b + 15) / 16;
  }

  /** Every operand begins at a multiple of 16 behind the one before it. */
  lemma SizesTested(M: nat, N: nat, K: nat, n: nat)
    ensures Bvml.SaxpyEnd(n) == (4 * n + 15) / 16 * 16 + (4 * n + 15) / 16 * 16 + 4 * n
    ensures Bvml.DotEnd(n) == (4 * n + 15) / 16 * 16 + (4 * n + 15) / 16 * 16 + 4
    ensures Bvml.GemmEnd(M, N, K) == (4 * (M * K) + 15) / 16 * 16 + (4 * (K * N) + 15) / 16 * 16 + 4 * (M * N)
  {
    SizesOf(M, N, K);
    RoundedTwice(Align16(4 * n), 4 * n);
    RoundedTwice(Align16(4 * (M * K)), 4 * (K * N));
    hide Times;
  }
}
