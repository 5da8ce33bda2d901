/** The linear-algebra calls: operands into device memory, kernel launches, results back out. */
module Bvml {
  import opened Bits
  import opened BradVector
  import opened Bvrt
  import opened BvrtThread
  import opened Kernels
  import KernelGemm
  import KernelDot
  import KernelSaxpy
  import opened BvmlSpec
  import opened BvrtDevice
  import Bvbc
  import opened BvbcFile
  import Bradc

  const MAX_INSNS := 100_000_000
  /** No host buffer reaches this size, so the byte counts do not wrap. */
  const HOST_LIMIT := 0x400_0000_0000_0000

  const SAXPY_ENTRY := 0
  const DOT_ENTRY := 17
  const GEMM_ENTRY := 32

  /** The assembled library: the three kernels one after the other. */
  function Library(): seq<Code> {
    CodeWords(KernelSaxpy.SAXPY) + CodeWords(KernelDot.DOT) + CodeWords(KernelGemm.GEMM)
  }

  /** The kernels of the library by name. */
  function LibraryKernels(): seq<Bvbc.Kernel> {
    [Bvbc.Kernel(Bradc.Bytes("saxpy"), SAXPY_ENTRY, 0), Bvbc.Kernel(Bradc.Bytes("dot"), DOT_ENTRY, 0),
     Bvbc.Kernel(Bradc.Bytes("gemm"), GEMM_ENTRY, 0)]
  }

  /** The kernel that the library has under a name. */
  function Named(name: string): Option<Bvbc.Kernel> { Bvbc.Lookup(LibraryKernels(), Bradc.Bytes(name)) }

  /** The three kernels are found under their names, where their code is. */
  lemma KernelsFound()
    ensures Named("saxpy").Some? && Named("saxpy").value.entry == SAXPY_ENTRY
    ensures Named("dot").Some? && Named("dot").value.entry == DOT_ENTRY
    ensures Named("gemm").Some? && Named("gemm").value.entry == GEMM_ENTRY
  {
    hide Library;
    var ks := LibraryKernels();
    assert |Bradc.Bytes("saxpy")| == 5 && |Bradc.Bytes("dot")| == 3 && |Bradc.Bytes("gemm")| == 4;
    Bvbc.LookupFirst(ks, Bradc.Bytes("saxpy"), 0);
    Bvbc.LookupFirst(ks, Bradc.Bytes("dot"), 1);
    Bvbc.LookupFirst(ks, Bradc.Bytes("gemm"), 2);
  }

  ghost predicate AllEncodable(prog: seq<Insn>) {
    forall k :: 0 <= k < |prog| ==> prog[k].Encodable()
  }

  /** The operations that the kernels use. */
  const KERNEL_OPS := {ADD, ADDi, MUL, MAD, CMP, IADD, ISUB, IMUL, LOAD, STORE, BR, BR_COND, EXIT}

  lemma NamedOps(op: Op)
    requires op in KERNEL_OPS
    ensures OpCode(op) < 256 && OpOf(OpCode(op)) == op
  {
  }

  predicate Plain(prog: seq<Insn>) {
    forall k :: 0 <= k < |prog| ==>
      var i := prog[k];
      && i.op in KERNEL_OPS && -128 <= i.imm < 128
      && i.pred < 256 && i.dst < 256 && i.src1 < 256 && i.src2 < 256 && i.flags < 256 && i.mod < 256
  }

  lemma PlainEncodable(prog: seq<Insn>)
    requires Plain(prog)
    ensures AllEncodable(prog)
  {
    hide OpCode, OpOf;
    forall k | 0 <= k < |prog| ensures prog[k].Encodable() { NamedOps(prog[k].op); }
  }

  lemma KernelsEncodable()
    ensures AllEncodable(KernelSaxpy.SAXPY) && AllEncodable(KernelDot.DOT) && AllEncodable(KernelGemm.GEMM)
  {
    hide AllEncodable;
    PlainEncodable(KernelSaxpy.SAXPY);
    PlainEncodable(KernelDot.DOT);
    PlainEncodable(KernelGemm.GEMM);
  }

  lemma LoadedIn(before: seq<Code>, prog: seq<Insn>, after: seq<Code>)
    requires AllEncodable(prog) && |before| + |prog| < 0x8000_0000
    ensures Loaded(before + CodeWords(prog) + after, |before|, prog)
  {
    hide Insn.Encodable, WordOf;
    var code := before + CodeWords(prog) + after;
    forall k | 0 <= k < |prog| ensures Decode(code[|before| + k]) == prog[k] {
      assert code[|before| + k] == CodeWords(prog)[k] == WordOf(prog[k]);
      DecodeWord(prog[k]);
    }
  }

  lemma LibraryLoaded()
    ensures Loaded(Library(), SAXPY_ENTRY, KernelSaxpy.SAXPY)
    ensures Loaded(Library(), DOT_ENTRY, KernelDot.DOT) && Loaded(Library(), GEMM_ENTRY, KernelGemm.GEMM)
  {
    hide AllEncodable, CodeWords, Loaded;
    KernelsEncodable();
    var s, d, g := CodeWords(KernelSaxpy.SAXPY), CodeWords(KernelDot.DOT), CodeWords(KernelGemm.GEMM);
    LoadedIn([], KernelSaxpy.SAXPY, d + g);
    LoadedIn(s, KernelDot.DOT, g);
    LoadedIn(s + d, KernelGemm.GEMM, []);
    assert Library() == [] + s + (d + g) == s + d + g == (s + d) + g + [];
  }

  lemma NextRead(mem: seq<Byte>, at: nat, i: nat)
    ensures ReadWords(mem, at, i + 1) == ReadWords(mem, at, i) + [Read32(mem, at + 4 * i)]
  {
    hide Read32;
  }

  class Bvml {
    const dev: BvrtDevice
    const img: ImageFile
    const memBytes: nat

    ghost predicate Valid()
      reads this, dev, dev.lanes, img
    {
      && dev.Valid() && img.kernels == LibraryKernels() && dev.code == Library() && MovExact(dev.F) && 0 < memBytes
      && dev.mem.Length == Clamped(memBytes)
    }

    /** The context remembers the requested size, the device clamps it. */
    constructor (F: Fpu, memBytes: nat, img: ImageFile)
      requires MovExact(F) && memBytes > 0 && img.kernels == LibraryKernels() && img.insns == Library()
      ensures Valid() && dev.F == F && this.memBytes == memBytes && this.img == img
      ensures fresh(dev) && fresh(dev.mem) && fresh(dev.lanes) && fresh(dev.active)
    {
      hide MovExact;
      var d := new BvrtDevice(F, memBytes);
      d.code := img.insns;
      dev, this.img, this.memBytes := d, img, memBytes;
    }

    /** memcpy into device memory. */
    method CopyIn(at: nat, host: array<Word>, n: nat)
      requires Valid() && n <= host.Length
      modifies dev.mem
      ensures Valid() && dev.mem[..] == PutWords(old(dev.mem[..]), at, host[..n])
    {
      hide MovExact, Write32;
      for i := 0 to n
        invariant Valid() && dev.mem[..] == PutWords(old(dev.mem[..]), at, host[..i])
      {
        dev.StoreWord(at + 4 * i, host[i]);
        assert host[..i + 1][..i] == host[..i];
      }
    }

    /** memcpy back out. */
    method CopyOut(at: nat, host: array<Word>, n: nat)
      requires Valid() && n <= host.Length
      modifies host
      ensures host[..] == ReadWords(dev.mem[..], at, n) + old(host[..])[n..]
    {
      hide MovExact, Read32;
      for i := 0 to n
        invariant dev.mem[..] == old(dev.mem[..])
        invariant host[..] == ReadWords(dev.mem[..], at, i) + old(host[..])[i..]
      {
        var v := dev.LoadWord(at + 4 * i);
        NextRead(dev.mem[..], at, i);
        host[i] := v;
      }
    }

    /** launch1: find the kernel by its name, start it and run it within the instruction budget. */
    method Launch1(name: string, args: seq<Word>) returns (rc: int)
      requires Valid()
      modifies dev, dev.lanes, dev.active, dev.mem
      ensures Valid() && dev.code == old(dev.code)
      ensures Named(name).None? ==> rc == -3 && dev.mem[..] == old(dev.mem[..])
      ensures Named(name).Some? ==>
                var start := Launch(WARP_SIZE, Named(name).value.entry, args, old(dev.mem[..]));
                var r := Run(dev.F, Library(), start, 100_000_000);
                dev.mem[..] == r.dev.mem && rc == if r.status == Halted then 0 else -4
    {
      hide MovExact, Library, Run, Bvrt.Launch, Bvbc.Lookup, Bradc.Bytes;
      var index := img.FindKernel(Bradc.Bytes(name));
      if index < 0 {
        return -3;
      }
      dev.Launch(img.kernels[index].entry, args);
      var st := dev.Run(MAX_INSNS);
      rc := if st == Halted then 0 else -4;
    }

    /** out[i] = a * x[i] + y[i]. */
    method Saxpy(a: Word, x: array?<Word>, y: array?<Word>, out: array?<Word>, n: nat) returns (rc: int)
      requires Valid()
      requires x != null && y != null && out != null ==>
                 n <= x.Length < HOST_LIMIT && n <= y.Length < HOST_LIMIT && n <= out.Length < HOST_LIMIT
      requires FitsDevice(memBytes, SaxpyEnd(n))
      modifies dev, dev.lanes, dev.active, dev.mem, if out != null then {out} else {}
      ensures Valid()
      ensures rc == if x == null || y == null || out == null then -1
                    else if n > 0 && SaxpyEnd(n) > memBytes then -2 else 0
      ensures rc == 0 ==> out[..] == BvmlSpec.Saxpy(dev.F, a, old(x[..]), old(y[..]), n) + old(out[..])[n..]
      ensures rc != 0 && out != null ==> out[..] == old(out[..])
    {
      hide Align16, Valid, Named, Run, Bvrt.Launch, Library, MovExact, PutWords, ReadWords, BvmlSpec.Saxpy;
      if x == null || y == null || out == null { return -1; }
      if n == 0 { return 0; }
      var yoff := Align16(4 * n);
      var ooff := Align16(yoff + 4 * n);
      if ooff + 4 * n > memBytes { return -2; }
      DeviceSize();
      KernelsFound();
      ghost var mem := dev.mem[..];
      CopyIn(0, x, n);
      CopyIn(yoff, y, n);
      SaxpyComputed(dev.F, mem, a, x[..], y[..], n);
      rc := Launch1("saxpy", [0, yoff, ooff, a, n, 4, 1]);
      CopyOut(ooff, out, n);
    }

    /** out[0] = the fold of multiply-adds over x and y. */
    method Dot(x: array?<Word>, y: array?<Word>, out: array?<Word>, n: nat) returns (rc: int)
      requires Valid()
      requires x != null && y != null && out != null ==>
                 n <= x.Length < HOST_LIMIT && n <= y.Length < HOST_LIMIT && 0 < out.Length
      requires FitsDevice(memBytes, DotEnd(n))
      modifies dev, dev.lanes, dev.active, dev.mem, if out != null then {out} else {}
      ensures Valid()
      ensures rc == if x == null || y == null || out == null then -1
                    else if n > 0 && DotEnd(n) > memBytes then -2 else 0
      ensures rc == 0 ==> out[..] == [DotFold(dev.F, old(x[..]), old(y[..]), n)] + old(out[..])[1..]
      ensures rc != 0 && out != null ==> out[..] == old(out[..])
    {
      hide Align16, Valid, Named, Run, Bvrt.Launch, Library, MovExact, PutWords, ReadWords;
      if x == null || y == null || out == null { return -1; }
      if n == 0 {
        out[0] := 0;
        return 0;
      }
      var yoff := Align16(4 * n);
      var ooff := Align16(yoff + 4 * n);
      if ooff + 4 > memBytes { return -2; }
      DeviceSize();
      KernelsFound();
      ghost var mem := dev.mem[..];
      CopyIn(0, x, n);
      CopyIn(yoff, y, n);
      DotComputed(dev.F, mem, x[..], y[..], n);
      rc := Launch1("dot", [0, yoff, ooff, n, 4, 1]);
      CopyOut(ooff, out, 1);
    }

    /** One launch for each cell of a product, row by row; all of them halt. */
    method AllCells(ghost p: Problem, boff: nat, coff: nat, alpha: Word, beta: Word, M: nat, N: nat, K: nat)
      requires Valid() && p.F == dev.F && p.Valid() && p.InMemory(dev.mem[..], 0, 0) && p.End() <= dev.mem.Length
      requires p.m == M && p.n == N && p.k == K && p.alpha == alpha && p.beta == beta
      requires boff == p.BOff() && coff == p.COff()
      modifies dev, dev.lanes, dev.active, dev.mem
      ensures Valid() && p.InMemory(dev.mem[..], M, 0)
    {
      hide Align16, Valid, Named, Run, Bvrt.Launch, Library, MovExact, Times, Problem.InMemory;
      KernelsFound();
      for r := 0 to M
        invariant Valid() && p.InMemory(dev.mem[..], r, 0)
      {
        for c := 0 to N
          invariant Valid() && p.InMemory(dev.mem[..], r, c)
        {
          DeviceSize();
          GemmCell(p, dev.mem[..], r, c);
          var rc := Launch1("gemm", [4 * Times(K, r), boff + 4 * c, coff + 4 * (Times(N, r) + c), K, 4, 4 * N, 1,
                                     alpha, beta]);
          assert rc == 0;
        }
        NextRow(p, dev.mem[..], r);
      }
    }

    /** C[r][c] = alpha * (A B)[r][c] + beta * C[r][c], one launch per element. */
    method Gemm(alpha: Word, A: array?<Word>, B: array?<Word>, beta: Word, C: array?<Word>, M: nat, N: nat, K: nat)
      returns (rc: int)
      requires Valid()
      requires A != null && B != null && C != null && M > 0 && N > 0 ==>
                 && Times(K, M) <= A.Length < HOST_LIMIT && Times(N, K) <= B.Length < HOST_LIMIT
                 && Times(N, M) <= C.Length < HOST_LIMIT
      requires FitsDevice(memBytes, GemmEnd(M, N, K))
      modifies dev, dev.lanes, dev.active, dev.mem, if C != null then {C} else {}
      ensures Valid()
      ensures rc == if A == null || B == null || C == null then -1
                    else if M > 0 && N > 0 && GemmEnd(M, N, K) > memBytes then -2 else 0
      ensures rc == 0 && M > 0 && N > 0 ==>
                C[..] == Given(dev.F, M, N, K, alpha, beta, old(A[..]), old(B[..]), old(C[..])).Rows(M)
                         + old(C[..])[Times(N, M)..]
      ensures rc != 0 || M == 0 || N == 0 ==> C != null ==> C[..] == old(C[..])
    {
      hide Align16, Valid, Named, Run, Bvrt.Launch, Library, MovExact, PutWords, ReadWords, Times;
      hide Problem.InMemory, Problem.Rows;
      if A == null || B == null || C == null { return -1; }
      if M == 0 || N == 0 { return 0; }
      var boff := Align16(4 * Times(K, M));
      var coff := Align16(boff + 4 * Times(N, K));
      if coff + 4 * Times(N, M) > memBytes { return -2; }
      DeviceSize();
      ghost var p := Given(dev.F, M, N, K, alpha, beta, A[..], B[..], C[..]);
      ghost var mem := dev.mem[..];
      CopyIn(0, A, Times(K, M));
      CopyIn(boff, B, Times(N, K));
      CopyIn(coff, C, Times(N, M));
      GemmReady(p, mem);
      AllCells(p, boff, coff, alpha, beta, M, N, K);
      GemmRead(p, dev.mem[..]);
      CopyOut(coff, C, Times(N, M));
      rc := 0;
    }

    /** The device's memory, for a context whose memory is not clamped below an offset. */
    lemma DeviceSize()
      requires Valid()
      ensures dev.mem.Length == Clamped(memBytes) && 0 < memBytes && MovExact(dev.F)
    {
      hide MovExact, Library;
    }
  }

  // ---------- The size test and the clamped device ----------

  /** An end that passes the size test of a context also fits its device. */
  predicate FitsDevice(memBytes: nat, end: nat) { end <= memBytes ==> end <= Clamped(memBytes) }

  /** Whatever passes a context's size test fits its device exactly when the device is not clamped. */
  lemma FitsDeviceIff(memBytes: nat)
    requires memBytes > 0
    ensures (forall end: nat :: FitsDevice(memBytes, end)) <==> memBytes <= 0x400_0000
  {
    if memBytes > MAX_MEM { assert !FitsDevice(memBytes, memBytes); }
  }

  /** Ten million elements pass the size test of a 128 MiB context and overrun its 64 MiB device. */
  lemma ClampedOverrun()
    ensures SaxpyEnd(10_000_000) == 120_000_000 <= 0x800_0000
    ensures !FitsDevice(0x800_0000, SaxpyEnd(10_000_000))
  {
  }

  function SaxpyEnd(n: nat): nat { Align16(Align16(4 * n) + 4 * n) + 4 * n }

  /** From two copied vectors to the copied result. */
  lemma SaxpyComputed(F: Fpu, mem: seq<Byte>, a: Word, x: seq<Word>, y: seq<Word>, n: nat)
    requires MovExact(F) && 0 < n <= |x| && n <= |y| && SaxpyEnd(n) <= |mem| <= MAX_MEM
    ensures var yoff, ooff := Align16(4 * n), Align16(Align16(4 * n) + 4 * n);
            var r := Run(F, Library(), Launch(WARP_SIZE, SAXPY_ENTRY, [0, yoff, ooff, a, n, 4, 1],
                                              PutWords(PutWords(mem, 0, x[..n]), yoff, y[..n])), MAX_INSNS);
            r.status == Halted && ReadWords(r.dev.mem, ooff, n) == BvmlSpec.Saxpy(F, a, x, y, n)
  {
    hide Run, Launch, Holds, Library, MovExact, Align16, ReadWords, PutWords;
    var yoff, ooff := Align16(4 * n), Align16(Align16(4 * n) + 4 * n);
    var g := KernelSaxpy.Args(0, yoff, ooff, a, n);
    TwoOperands(mem, x[..n], yoff, y[..n]);
    var ready := PutWords(PutWords(mem, 0, x[..n]), yoff, y[..n]);
    LibraryLoaded();
    KernelSaxpy.SaxpyLaunch(F, Library(), SAXPY_ENTRY, g, ready, MAX_INSNS);
    SaxpyStored(F, ready, g, x[..n], y[..n], n);
    SaxpyPrefix(F, a, x, y, n, n);
    HeldRead(KernelSaxpy.Stored(F, ready, g, n), ooff, BvmlSpec.Saxpy(F, a, x, y, n));
  }

  /** A vector at 0 and another after it. */
  lemma TwoOperands(mem: seq<Byte>, x: seq<Word>, yoff: nat, y: seq<Word>)
    requires 4 * |x| <= yoff && yoff + 4 * |y| <= |mem|
    ensures var ready := PutWords(PutWords(mem, 0, x), yoff, y); Holds(ready, 0, x) && Holds(ready, yoff, y)
  {
    hide Holds;
    PutHolds(mem, 0, x);
    PutHolds(PutWords(mem, 0, x), yoff, y);
    PutKeeps(PutWords(mem, 0, x), 0, x, yoff, y);
  }

  function DotEnd(n: nat): nat { Align16(Align16(4 * n) + 4 * n) + 4 }

  lemma DotComputed(F: Fpu, mem: seq<Byte>, x: seq<Word>, y: seq<Word>, n: nat)
    requires MovExact(F) && 0 < n <= |x| && n <= |y| && DotEnd(n) <= |mem| <= MAX_MEM
    ensures var yoff, ooff := Align16(4 * n), Align16(Align16(4 * n) + 4 * n);
            var r := Run(F, Library(), Launch(WARP_SIZE, DOT_ENTRY, [0, yoff, ooff, n, 4, 1],
                                              PutWords(PutWords(mem, 0, x[..n]), yoff, y[..n])), MAX_INSNS);
            r.status == Halted && ReadWords(r.dev.mem, ooff, 1) == [DotFold(F, x, y, n)]
  {
    hide Run, Launch, Holds, Library, MovExact, Align16, Write32, MadFold, ReadWords, PutWords;
    var yoff, ooff := Align16(4 * n), Align16(Align16(4 * n) + 4 * n);
    var g := KernelDot.Args(0, yoff, ooff, n);
    TwoOperands(mem, x[..n], yoff, y[..n]);
    var ready := PutWords(PutWords(mem, 0, x[..n]), yoff, y[..n]);
    LibraryLoaded();
    KernelDot.DotLaunch(F, Library(), DOT_ENTRY, g, ready, MAX_INSNS);
    DotOfMemory(F, ready, 0, x[..n], yoff, y[..n], n);
    DotPrefix(F, x, y, n, n);
    ReadOne(ready, ooff, DotFold(F, x, y, n));
  }

  lemma ReadOne(mem: seq<Byte>, at: nat, v: Word)
    requires at + 4 <= |mem|
    ensures ReadWords(Write32(mem, at, v), at, 1) == [v]
  {
    hide Read32, Write32;
    ReadWritten(mem, at, v);
  }

  lemma {:induction false} DotPrefix(F: Fpu, x: seq<Word>, y: seq<Word>, n: nat, m: nat)
    requires m <= n <= |x| && n <= |y|
    ensures DotFold(F, x[..n], y[..n], m) == DotFold(F, x, y, m)
  {
    if m > 0 { DotPrefix(F, x, y, n, m - 1); }
  }

  function GemmEnd(M: nat, N: nat, K: nat): nat {
    Align16(Align16(4 * Times(K, M)) + 4 * Times(N, K)) + 4 * Times(N, M)
  }

  /** The problem posed by a call: the parts of the buffers that the sizes name. */
  function Given(F: Fpu, M: nat, N: nat, K: nat, alpha: Word, beta: Word, A: seq<Word>, B: seq<Word>, C: seq<Word>):
      Problem
    requires Times(K, M) <= |A| && Times(N, K) <= |B| && Times(N, M) <= |C|
  {
    Problem(F, M, N, K, alpha, beta, A[..Times(K, M)], B[..Times(N, K)], C[..Times(N, M)])
  }

  lemma GemmReady(p: Problem, mem: seq<Byte>)
    requires p.Valid() && p.End() <= |mem|
    ensures p.InMemory(PutWords(PutWords(PutWords(mem, 0, p.a), p.BOff(), p.b), p.COff(), p.c), 0, 0)
  {
    hide Holds, Align16, Times;
    TimesNext(p.n, 0);
    var two := PutWords(PutWords(mem, 0, p.a), p.BOff(), p.b);
    TwoOperands(mem, p.a, p.BOff(), p.b);
    PutHolds(two, p.COff(), p.c);
    PutKeeps(two, 0, p.a, p.COff(), p.c);
    PutKeeps(two, p.BOff(), p.b, p.COff(), p.c);
    assert p.Rows(0) + p.Row(0, 0) + p.c[0..] == p.c;
  }

  /** The launch for one cell halts within the budget and does that cell. */
  lemma GemmCell(p: Problem, mem: seq<Byte>, r: nat, c: nat)
    requires MovExact(p.F) && p.Valid() && p.InMemory(mem, r, c) && r < p.m && c < p.n
    requires p.End() <= |mem| <= MAX_MEM
    ensures p.Launch(r, c).Fits(|mem|)
    ensures var after := Run(p.F, Library(), Launch(WARP_SIZE, GEMM_ENTRY, p.Launch(r, c).Words(), mem), MAX_INSNS);
            after.status == Halted && p.InMemory(after.dev.mem, r, c + 1)
  {
    hide Run, Launch, Library, MovExact, Align16, Times, Problem.InMemory, KernelGemm.Element, Problem.Launch;
    hide KernelGemm.Args.Fits;
    LaunchFits(p, |mem|, r, c);
    assert p.Launch(r, c).k == p.k by { LaunchK(p, r, c); }
    LibraryLoaded();
    KernelGemm.GemmLaunch(p.F, Library(), GEMM_ENTRY, p.Launch(r, c), mem, MAX_INSNS);
    CellDone(p, mem, r, c);
  }

  lemma LaunchK(p: Problem, r: nat, c: nat)
    ensures p.Launch(r, c).k == p.k
  {
  }

  lemma GemmRead(p: Problem, mem: seq<Byte>)
    requires p.Valid() && p.InMemory(mem, p.m, 0)
    ensures ReadWords(mem, p.COff(), Times(p.n, p.m)) == p.Rows(p.m)
  {
    hide Holds, Align16, Times;
    RowsLength(p, p.m);
    assert p.Rows(p.m) + p.Row(p.m, 0) + p.c[Index(p.n, p.m, 0)..] == p.Rows(p.m);
    HeldRead(mem, p.COff(), p.Rows(p.m));
  }

  lemma HeldRead(mem: seq<Byte>, at: nat, ws: seq<Word>)
    requires Holds(mem, at, ws)
    ensures ReadWords(mem, at, |ws|) == ws
  {
  }

  lemma {:induction false} SaxpyPrefix(F: Fpu, a: Word, x: seq<Word>, y: seq<Word>, n: nat, m: nat)
    requires m <= n <= |x| && n <= |y|
    ensures BvmlSpec.Saxpy(F, a, x[..n], y[..n], m) == BvmlSpec.Saxpy(F, a, x, y, m)
  {
    if m > 0 { SaxpyPrefix(F, a, x, y, n, m - 1); }
  }
}
