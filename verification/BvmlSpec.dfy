/** What the linear-algebra calls compute, and why the kernels' launches compute it. */
module BvmlSpec {
  import opened Bits
  import opened BradVector
  import opened Bvrt
  import opened Kernels
  import KernelGemm
  import KernelSaxpy

  // ---------- Words in device memory ----------

  /** Memory with the words ws stored from `at` on. */
  function PutWords(mem: seq<Byte>, at: nat, ws: seq<Word>): (r: seq<Byte>)
    ensures |r| == |mem|
  {
    if ws == [] then mem
    else Write32(PutWords(mem, at, ws[..|ws| - 1]), at + 4 * (|ws| - 1), ws[|ws| - 1])
  }

  function ReadWords(mem: seq<Byte>, at: nat, n: nat): (r: seq<Word>)
    ensures |r| == n && forall i :: 0 <= i < n ==> r[i] == Read32(mem, at + 4 * i)
  {
    seq(n, i requires 0 <= i => Read32(mem, at + 4 * i))
  }

  /** The words ws are in memory from `at` on. */
  ghost predicate Holds(mem: seq<Byte>, at: nat, ws: seq<Word>) {
    at + 4 * |ws| <= |mem| && ReadWords(mem, at, |ws|) == ws
  }

  lemma {:induction false} PutHolds(mem: seq<Byte>, at: nat, ws: seq<Word>)
    requires at + 4 * |ws| <= |mem|
    ensures Holds(PutWords(mem, at, ws), at, ws)
  {
    hide Read32, Write32;
    if ws != [] {
      var init, last := ws[..|ws| - 1], ws[|ws| - 1];
      PutHolds(mem, at, init);
      WriteExtends(PutWords(mem, at, init), at, init, last);
      assert init + [last] == ws;
    }
  }

  /** A word stored right after the others extends them. */
  lemma WriteExtends(mem: seq<Byte>, at: nat, ws: seq<Word>, v: Word)
    requires Holds(mem, at, ws) && at + 4 * |ws| + 4 <= |mem|
    ensures Holds(Write32(mem, at + 4 * |ws|, v), at, ws + [v])
  {
    hide Read32, Write32;
    var to := at + 4 * |ws|;
    ReadWritten(mem, to, v);
    forall i | 0 <= i < |ws| ensures Read32(Write32(mem, to, v), at + 4 * i) == ws[i] {
      assert ReadWords(mem, at, |ws|)[i] == ws[i];
      ReadElsewhere(mem, to, v, at + 4 * i);
    }
    assert ReadWords(Write32(mem, to, v), at, |ws| + 1) == ws + [v];
  }

  /** A word stored elsewhere leaves them alone. */
  lemma WriteKeeps(mem: seq<Byte>, at: nat, ws: seq<Word>, to: nat, v: Word)
    requires Holds(mem, at, ws) && (to + 4 <= at || at + 4 * |ws| <= to)
    ensures Holds(Write32(mem, to, v), at, ws)
  {
    hide Read32, Write32;
    forall i | 0 <= i < |ws| ensures Read32(Write32(mem, to, v), at + 4 * i) == ws[i] {
      assert ReadWords(mem, at, |ws|)[i] == ws[i];
      ReadElsewhere(mem, to, v, at + 4 * i);
    }
    assert ReadWords(Write32(mem, to, v), at, |ws|) == ws;
  }

  lemma {:induction false} PutKeeps(mem: seq<Byte>, at: nat, ws: seq<Word>, to: nat, vs: seq<Word>)
    requires Holds(mem, at, ws) && (to + 4 * |vs| <= at || at + 4 * |ws| <= to)
    ensures Holds(PutWords(mem, to, vs), at, ws)
  {
    hide Holds, Write32;
    if vs != [] {
      PutKeeps(mem, at, ws, to, vs[..|vs| - 1]);
      WriteKeeps(PutWords(mem, to, vs[..|vs| - 1]), at, ws, to + 4 * (|vs| - 1), vs[|vs| - 1]);
    }
  }

  lemma HeldWord(mem: seq<Byte>, at: nat, ws: seq<Word>, i: nat)
    requires Holds(mem, at, ws) && i < |ws|
    ensures Read32(mem, at + 4 * i) == ws[i] && at + 4 * i + 4 <= |mem|
  {
    hide Read32;
    assert ReadWords(mem, at, |ws|)[i] == ws[i];
  }

  // ---------- Layout ----------

  function Align16(n: nat): (r: nat)
    ensures r >= n && r % 16 == 0 && r < n + 16
  {
    (n + 15) / 16 * 16
  }

  /** Position of element (r, c) in a row-major matrix of n columns. */
  function Index(n: nat, r: nat, c: nat): nat { Times(n, r) + c }

  lemma IndexBound(m: nat, n: nat, r: nat, c: nat)
    requires r < m && c < n
    ensures Index(n, r, c) < Times(n, m) && Times(n, r) + n <= Times(n, m)
  {
    assert n * r + n == n * (r + 1);
    assert n * (r + 1) <= n * m;
  }

  lemma TimesGrows(n: nat, m: nat)
    requires m > 0
    ensures Times(n, m) >= n && Times(m, n) >= n && Times(4 * n, m) == 4 * Times(n, m)
  {
    assert n * (m - 1) >= 0;
  }

  // ---------- Dot products and SAXPY ----------

  /** The left fold of multiply-adds over the first n elements, starting from 0. */
  function DotFold(F: Fpu, x: seq<Word>, y: seq<Word>, n: nat): Word
    requires n <= |x| && n <= |y|
  {
    if n == 0 then 0 else (F.mad)(x[n - 1], y[n - 1], DotFold(F, x, y, n - 1))
  }

  lemma {:induction false} DotOfMemory(F: Fpu, mem: seq<Byte>, xoff: nat, x: seq<Word>, yoff: nat, y: seq<Word>, n: nat)
    requires Holds(mem, xoff, x) && Holds(mem, yoff, y) && n <= |x| && n <= |y|
    ensures MadFold(F, mem, xoff, yoff, 4, n) == DotFold(F, x, y, n)
  {
    hide Read32, Holds, MadFold;
    if n == 0 {
      NextFold(F, mem, xoff, yoff, 4, 0);
    } else {
      NextFold(F, mem, xoff, yoff, 4, n - 1);
      DotOfMemory(F, mem, xoff, x, yoff, y, n - 1);
      HeldWord(mem, xoff, x, n - 1);
      HeldWord(mem, yoff, y, n - 1);
    }
  }

  function Saxpy(F: Fpu, a: Word, x: seq<Word>, y: seq<Word>, n: nat): (r: seq<Word>)
    requires n <= |x| && n <= |y|
    ensures |r| == n
  {
    if n == 0 then []
    else Saxpy(F, a, x, y, n - 1) + [(F.binary)(ADD, (F.binary)(MUL, a, x[n - 1]), y[n - 1])]
  }

  lemma {:induction false} SaxpyAt(F: Fpu, a: Word, x: seq<Word>, y: seq<Word>, n: nat, i: nat)
    requires i < n <= |x| && n <= |y|
    ensures Saxpy(F, a, x, y, n)[i] == (F.binary)(ADD, (F.binary)(MUL, a, x[i]), y[i])
  {
    if i < n - 1 { SaxpyAt(F, a, x, y, n - 1, i); }
  }

  lemma {:induction false} SaxpyStored(F: Fpu, mem: seq<Byte>, g: KernelSaxpy.Args, x: seq<Word>, y: seq<Word>, n: nat)
    requires Holds(mem, g.x, x) && Holds(mem, g.y, y) && n <= |x| && n <= |y| && g.out + 4 * n <= |mem|
    ensures Holds(KernelSaxpy.Stored(F, mem, g, n), g.out, Saxpy(F, g.a, x, y, n))
  {
    hide Read32, Write32;
    if n > 0 {
      SaxpyStored(F, mem, g, x, y, n - 1);
      HeldWord(mem, g.x, x, n - 1);
      HeldWord(mem, g.y, y, n - 1);
      hide Holds;
      WriteExtends(KernelSaxpy.Stored(F, mem, g, n - 1), g.out, Saxpy(F, g.a, x, y, n - 1),
                   KernelSaxpy.Element(F, mem, g, n - 1));
    }
  }

  // ---------- Matrix multiplication ----------

  function At(ws: seq<Word>, i: nat): Word { if i < |ws| then ws[i] else 0 }

  /** The matrix product's operands; a has m * k elements, b has k * n, c has m * n. */
  datatype Problem = Problem(F: Fpu, m: nat, n: nat, k: nat, alpha: Word, beta: Word,
                             a: seq<Word>, b: seq<Word>, c: seq<Word>) {
    ghost predicate Valid() { |a| == Times(k, m) && |b| == Times(n, k) && |c| == Times(n, m) }

    /** The left fold over the first j products of row r and column col. */
    function Sum(r: nat, col: nat, j: nat): Word {
      if j == 0 then 0 else (F.mad)(At(a, Index(k, r, j - 1)), At(b, Index(n, j - 1, col)), Sum(r, col, j - 1))
    }

    function Cell(r: nat, col: nat): Word {
      (F.binary)(ADD, (F.binary)(MUL, Sum(r, col, k), alpha), (F.binary)(MUL, beta, At(c, Index(n, r, col))))
    }

    /** The first cells of row r. */
    function Row(r: nat, cols: nat): (s: seq<Word>)
      ensures |s| == cols
    {
      if cols == 0 then [] else Row(r, cols - 1) + [Cell(r, cols - 1)]
    }

    function Rows(rows: nat): seq<Word> {
      if rows == 0 then [] else Rows(rows - 1) + Row(rows - 1, n)
    }

    function BOff(): nat { Align16(4 * Times(k, m)) }

    function COff(): nat { Align16(BOff() + 4 * Times(n, k)) }

    function End(): nat { COff() + 4 * Times(n, m) }

    function Launch(r: nat, col: nat): KernelGemm.Args {
      KernelGemm.Args(4 * Times(k, r), BOff() + 4 * col, COff() + 4 * Index(n, r, col), k, 4 * n, alpha, beta)
    }

    /** Device memory while the cells before (r, col) are done. */
    ghost predicate InMemory(mem: seq<Byte>, r: nat, col: nat) {
      && Holds(mem, 0, a) && Holds(mem, BOff(), b) && Index(n, r, col) <= |c|
      && Holds(mem, COff(), Rows(r) + Row(r, col) + c[Index(n, r, col)..])
    }
  }

  lemma {:induction false} RowsLength(p: Problem, rows: nat)
    ensures |p.Rows(rows)| == Times(p.n, rows)
  {
    TimesNext(p.n, 0);
    if rows > 0 {
      RowsLength(p, rows - 1);
      TimesNext(p.n, rows - 1);
    }
  }

  lemma {:induction false} RowAt(p: Problem, r: nat, cols: nat, col: nat)
    requires col < cols
    ensures p.Row(r, cols)[col] == p.Cell(r, col)
  {
    hide Problem.Cell;
    if col < cols - 1 { RowAt(p, r, cols - 1, col); }
  }

  lemma {:induction false} CellsAt(p: Problem, rows: nat, r: nat, col: nat)
    requires r < rows && col < p.n
    ensures Index(p.n, r, col) < |p.Rows(rows)| && p.Rows(rows)[Index(p.n, r, col)] == p.Cell(r, col)
  {
    hide Times, Problem.Cell, Problem.Row;
    IndexBound(rows, p.n, r, col);
    RowsLength(p, rows);
    RowsLength(p, rows - 1);
    if r < rows - 1 {
      CellsAt(p, rows - 1, r, col);
    } else {
      RowAt(p, r, p.n, col);
    }
  }

  /** The result matrix, element by element. */
  lemma RowsAt(p: Problem, rows: nat, r: nat, col: nat)
    requires p.Valid() && r < rows <= p.m && col < p.n
    ensures p.n * r + col < |p.Rows(rows)| && p.n * r + col < |p.c|
    ensures p.Rows(rows)[p.n * r + col]
            == (p.F.binary)(ADD, (p.F.binary)(MUL, p.Sum(r, col, p.k), p.alpha),
                                 (p.F.binary)(MUL, p.beta, p.c[p.n * r + col]))
  {
    hide Problem.Sum, Problem.Rows;
    CellsAt(p, rows, r, col);
    IndexBound(p.m, p.n, r, col);
  }

  /** Moving on to the next row. */
  lemma NextRow(p: Problem, mem: seq<Byte>, r: nat)
    requires p.InMemory(mem, r, p.n)
    ensures p.InMemory(mem, r + 1, 0)
  {
    hide Holds, Times, Problem.Cell;
    TimesNext(p.n, r);
    assert p.Rows(r) + p.Row(r, p.n) + p.c[Index(p.n, r, p.n)..]
        == p.Rows(r + 1) + p.Row(r + 1, 0) + p.c[Index(p.n, r + 1, 0)..];
  }

  /** The kernel's fold over memory is the fold over the operands. */
  lemma {:induction false} SumOfMemory(p: Problem, mem: seq<Byte>, r: nat, col: nat, j: nat)
    requires p.Valid() && Holds(mem, 0, p.a) && Holds(mem, p.BOff(), p.b) && r < p.m && col < p.n && j <= p.k
    ensures var g := p.Launch(r, col); MadFold(p.F, mem, g.a, g.b, g.stepB, j) == p.Sum(r, col, j)
  {
    hide Read32, Holds, MadFold, Times, Align16;
    var g := p.Launch(r, col);
    if j == 0 {
      NextFold(p.F, mem, g.a, g.b, g.stepB, 0);
    } else {
      NextFold(p.F, mem, g.a, g.b, g.stepB, j - 1);
      SumOfMemory(p, mem, r, col, j - 1);
      IndexBound(p.m, p.k, r, j - 1);
      IndexBound(p.k, p.n, j - 1, col);
      TimesScale(p.n, j - 1);
      HeldWord(mem, 0, p.a, Index(p.k, r, j - 1));
      HeldWord(mem, p.BOff(), p.b, Index(p.n, j - 1, col));
    }
  }

  lemma TimesScale(n: nat, j: nat)
    ensures Times(4 * n, j) == 4 * Times(n, j)
  {
  }

  /** The launch for a cell finds its operands inside memory, and its loop is short enough. */
  lemma LaunchFits(p: Problem, size: nat, r: nat, col: nat)
    requires p.End() <= size <= 0x400_0000 && r < p.m && col < p.n
    ensures p.Launch(r, col).Fits(size) && 8 * p.k <= size
  {
    hide Times, Align16;
    var g := p.Launch(r, col);
    IndexBound(p.m, p.n, r, col);
    TimesGrows(p.k, p.m);
    TimesGrows(p.k, p.n);
    TimesGrows(p.n, p.m);
    if p.k > 0 { IndexBound(p.m, p.k, r, p.k - 1); }
    TimesNext(p.k, r);
    RowFits(p, r);
    TimesScale(p.n, p.k);
    forall j | 0 <= j < p.k ensures g.b + Times(4 * p.n, j) + 4 <= size {
      TimesScale(p.n, j);
      IndexBound(p.k, p.n, j, col);
    }
  }

  lemma RowFits(p: Problem, r: nat)
    requires r < p.m
    ensures Times(p.k, r) + p.k <= Times(p.k, p.m)
  {
    assert p.k * r + p.k == p.k * (r + 1);
    assert p.k * (r + 1) <= p.k * p.m;
  }

  /** One launch does one cell. */
  lemma CellDone(p: Problem, mem: seq<Byte>, r: nat, col: nat)
    requires p.Valid() && p.InMemory(mem, r, col) && r < p.m && col < p.n
    ensures var g := p.Launch(r, col);
            p.InMemory(Write32(mem, g.c, KernelGemm.Element(p.F, mem, g)), r, col + 1)
  {
    hide Read32, Write32, Holds, MadFold, Times, Align16, Problem.Row;
    var g := p.Launch(r, col);
    IndexBound(p.m, p.n, r, col);
    RowsLength(p, r);
    var i := Index(p.n, r, col);
    var done := p.Rows(r) + p.Row(r, col);
    assert (done + p.c[i..])[i] == p.c[i];
    HeldWord(mem, p.COff(), done + p.c[i..], i);
    SumOfMemory(p, mem, r, col, p.k);
    var v := KernelGemm.Element(p.F, mem, g);
    assert v == p.Cell(r, col);
    WriteKeeps(mem, 0, p.a, g.c, v);
    WriteKeeps(mem, p.BOff(), p.b, g.c, v);
    WriteInside(mem, p.COff(), done + p.c[i..], i, v);
    RowNext(p, r, col);
    assert (done + p.c[i..])[i := v] == p.Rows(r) + p.Row(r, col + 1) + p.c[i + 1..];
  }

  lemma RowNext(p: Problem, r: nat, col: nat)
    ensures p.Row(r, col + 1) == p.Row(r, col) + [p.Cell(r, col)]
  {
    hide Problem.Cell;
  }

  lemma WriteInside(mem: seq<Byte>, at: nat, ws: seq<Word>, i: nat, v: Word)
    requires Holds(mem, at, ws) && i < |ws|
    ensures Holds(Write32(mem, at + 4 * i, v), at, ws[i := v])
  {
    hide Read32, Write32;
    var to := at + 4 * i;
    ReadWritten(mem, to, v);
    forall j | 0 <= j < |ws| && j != i ensures Read32(Write32(mem, to, v), at + 4 * j) == ws[j] {
      assert ReadWords(mem, at, |ws|)[j] == ws[j];
      ReadElsewhere(mem, to, v, at + 4 * j);
    }
    assert ReadWords(Write32(mem, to, v), at, |ws|) == ws[i := v];
  }
}
