/** The inner-product kernel of the matrix multiplication. */
module KernelGemm {
  import opened Bits
  import opened BradVector
  import opened Bvrt
  import opened BvrtThread
  import opened Kernels

  /**
    S16 = A row, S17 = B column, S18 = result, S19 = count, S20 = A step, S21 = B step, S22 = 1,
    S23 = alpha, S24 = beta.
   */
  const GEMM: seq<Insn> := [
    Mov(1, 0), Mov(2, 16), Mov(3, 17), Mov(4, 19),
    // gloop:
    Cmp(0, 4, 0), BranchIf(0, 7),
    Load(5, 2), Load(6, 3), Reg3(MAD, 1, 5, 6),
    Reg3(IADD, 2, 2, 20), Reg3(IADD, 3, 3, 21), Reg3(ISUB, 4, 4, 22), Branch(-9),
    // gdone:
    Reg3(MUL, 1, 1, 23), Load(7, 18), Reg3(MUL, 10, 24, 7), Reg3(ADD, 1, 1, 10), StoreTo(18, 1), Exit()
  ]

  /** The arguments of one launch. */
  datatype Args = Args(a: nat, b: nat, c: nat, k: nat, stepB: nat, alpha: Word, beta: Word) {
    function Words(): seq<Word>
      requires a < WORD && b < WORD && c < WORD && k < WORD && stepB < WORD
    { [a, b, c, k, 4, stepB, 1, alpha, beta] }

    /** Every word that the kernel touches is in memory, below the range where addresses turn negative. */
    predicate Fits(size: nat) {
      && size < 0x4000_0000 && c + 4 <= size && k < 0x4000_0000 && stepB < 0x4000_0000
      && a < WORD && b < WORD && a + 4 * k <= size && (forall j :: 0 <= j < k ==> b + Times(stepB, j) + 4 <= size)
      && b + Times(stepB, k) < 0x4000_0000
    }
  }

  function Acc(F: Fpu, mem: seq<Byte>, g: Args, j: nat): Word { MadFold(F, mem, g.a, g.b, g.stepB, j) }

  function Element(F: Fpu, mem: seq<Byte>, g: Args): Word {
    (F.binary)(ADD, (F.binary)(MUL, Acc(F, mem, g, g.k), g.alpha), (F.binary)(MUL, g.beta, Read32(mem, g.c)))
  }

  /** The lane at the loop head, with j products done. */
  ghost predicate AtHead(F: Fpu, g: Args, mem: seq<Byte>, t: Thread, j: nat) {
    && j <= g.k && t.at == 4 && t.mem == mem && t.lane.Valid() && t.insns == 4 + 9 * j
    && t.lane.s[0] == 0
    && t.lane.s[1] == Acc(F, mem, g, j) && t.lane.s[2] == g.a + 4 * j
    && t.lane.s[3] == g.b + Times(g.stepB, j) && t.lane.s[4] == g.k - j
    && ArgsIn(g, t.lane)
  }

  ghost predicate ArgsIn(g: Args, w: Lane)
    requires w.Valid()
  {
    && g.a < WORD && g.b < WORD && g.c < WORD && g.k < WORD && g.stepB < WORD
    && forall r :: 0 <= r < 9 ==> w.s[16 + r] == g.Words()[r]
  }

  /** The loop test fails: control enters the body. */
  lemma Enter(F: Fpu, g: Args, t: Thread, j: nat) returns (u: Thread)
    requires AtHead(F, g, t.mem, t, j) && j < g.k
    ensures ThreadRun(F, GEMM, t, 2) == Some(u)
    ensures u.lane.Valid() && u == t.(at := 6, lane := u.lane, insns := t.insns + 2) && u.lane.s == t.lane.s
  {
    hide ThreadRun, Acc, Times, Args.Fits, ArgsIn;
    CmpBranchSteps(F, GEMM, t, 4, 0, 7);
    u := t.(at := 6, lane := SetP(t.lane, 0, 0), insns := t.insns + 2);
  }

  /** Two words are fetched, multiplied and added. */
  lemma Product(F: Fpu, t: Thread, sum: Word, x: nat, y: nat) returns (u: Thread)
    requires t.at == 6 && t.lane.Valid() && t.lane.s[1] == sum && t.lane.s[2] == x && t.lane.s[3] == y
    requires x + 4 <= |t.mem| && y + 4 <= |t.mem| < 0x4000_0000
    ensures ThreadRun(F, GEMM, t, 3) == Some(u) && u.at == 9 && u.mem == t.mem && u.insns == t.insns + 3
    ensures u.lane.Valid() && u.lane.s[1] == (F.mad)(Read32(t.mem, x), Read32(t.mem, y), sum)
    ensures forall r :: 0 <= r < 256 && r !in {1, 5, 6} ==> u.lane.s[r] == t.lane.s[r]
  {
    hide Runs, ThreadStep, Read32;
    u := t;
    assert ThreadRun(F, GEMM, t, 0) == Some(t);
    hide ThreadRun;
    LoadStep(F, GEMM, u, 5, 2);
    Then(F, GEMM, t, 0, u);
    u := Wrote(u, 5, Read32(t.mem, x));
    LoadStep(F, GEMM, u, 6, 3);
    Then(F, GEMM, t, 1, u);
    u := Wrote(u, 6, Read32(t.mem, y));
    FloatStep(F, GEMM, u, MAD, 1, 5, 6);
    Then(F, GEMM, t, 2, u);
    u := Wrote(u, 1, (F.mad)(Read32(t.mem, x), Read32(t.mem, y), sum));
  }

  lemma InBounds(g: Args, size: nat, j: nat)
    requires g.Fits(size) && j < g.k
    ensures size < 0x4000_0000 && g.a + 4 * j + 4 <= size && g.b + Times(g.stepB, j) + 4 <= size
  {
  }

  /** The rest of the loop body: both pointers advance, the count goes down. */
  lemma Advance(F: Fpu, g: Args, t: Thread, j: nat) returns (u: Thread)
    requires t.at == 9 && t.lane.Valid() && j < g.k && g.Fits(|t.mem|) && ArgsIn(g, t.lane)
    requires t.lane.s[2] == g.a + 4 * j && t.lane.s[3] == g.b + Times(g.stepB, j) && t.lane.s[4] == g.k - j
    ensures ThreadRun(F, GEMM, t, 4) == Some(u) && u.at == 4 && u.mem == t.mem && u.insns == t.insns + 4
    ensures u.lane.Valid() && u.lane.s[2] == g.a + 4 * (j + 1) && u.lane.s[3] == g.b + Times(g.stepB, j + 1)
    ensures u.lane.s[4] == g.k - (j + 1)
    ensures forall r :: 0 <= r < 256 && r !in {2, 3, 4} ==> u.lane.s[r] == t.lane.s[r]
  {
    hide Runs, ThreadStep, Times;
    TimesNext(g.stepB, j);
    ReadArgs(g, t.lane);
    u := t;
    IntStep(F, GEMM, u, IADD, 2, 2, 20);
    assert ThreadRun(F, GEMM, t, 0) == Some(t);
    hide ThreadRun;
    Then(F, GEMM, t, 0, u);
    u := Wrote(u, 2, t.lane.s[2] + 4);
    IntStep(F, GEMM, u, IADD, 3, 3, 21);
    Then(F, GEMM, t, 1, u);
    u := Wrote(u, 3, t.lane.s[3] + g.stepB);
    IntStep(F, GEMM, u, ISUB, 4, 4, 22);
    Then(F, GEMM, t, 2, u);
    u := Wrote(u, 4, t.lane.s[4] - 1);
    BranchStep(F, GEMM, u, -9);
    Then(F, GEMM, t, 3, u);
    u := u.(at := 4, insns := u.insns + 1);
  }

  lemma ReadArgs(g: Args, w: Lane)
    requires w.Valid() && ArgsIn(g, w)
    ensures w.s[16] == g.a && w.s[17] == g.b && w.s[18] == g.c && w.s[19] == g.k && w.s[20] == 4
    ensures w.s[21] == g.stepB && w.s[22] == 1 && w.s[23] == g.alpha && w.s[24] == g.beta
  {
    assert w.s[16 + 0] == g.Words()[0] && w.s[16 + 1] == g.Words()[1] && w.s[16 + 2] == g.Words()[2];
    assert w.s[16 + 3] == g.Words()[3] && w.s[16 + 4] == g.Words()[4] && w.s[16 + 5] == g.Words()[5];
    assert w.s[16 + 6] == g.Words()[6] && w.s[16 + 7] == g.Words()[7] && w.s[16 + 8] == g.Words()[8];
  }

  lemma Iterate(F: Fpu, g: Args, t: Thread, j: nat)
    requires AtHead(F, g, t.mem, t, j) && j < g.k && g.Fits(|t.mem|)
    ensures ThreadRun(F, GEMM, t, 9).Some? && AtHead(F, g, t.mem, ThreadRun(F, GEMM, t, 9).value, j + 1)
  {
    hide ThreadRun, MadFold, Times, Read32, Args.Fits;
    InBounds(g, |t.mem|, j);
    NextFold(F, t.mem, g.a, g.b, g.stepB, j);
    var u := Enter(F, g, t, j);
    var v := Product(F, u, t.lane.s[1], t.lane.s[2], t.lane.s[3]);
    var w := Advance(F, g, v, j);
    RunConcat(F, GEMM, t, 2, 3);
    RunConcat(F, GEMM, t, 5, 4);
  }

  /** From the loop head to the end of the loop. */
  lemma {:induction false} Loop(F: Fpu, g: Args, t: Thread, j: nat)
    requires AtHead(F, g, t.mem, t, j) && g.Fits(|t.mem|)
    ensures ThreadRun(F, GEMM, t, 9 * (g.k - j)).Some?
    ensures AtHead(F, g, t.mem, ThreadRun(F, GEMM, t, 9 * (g.k - j)).value, g.k)
    decreases g.k - j
  {
    hide AtHead, Runs, ThreadStep;
    HeadBound(F, g, t, j);
    if j < g.k {
      Iterate(F, g, t, j);
      var u := ThreadRun(F, GEMM, t, 9).value;
      HeadBound(F, g, u, j + 1);
      Loop(F, g, u, j + 1);
      RunConcat(F, GEMM, t, 9, 9 * (g.k - (j + 1)));
    }
  }

  lemma HeadBound(F: Fpu, g: Args, t: Thread, j: nat)
    requires exists mem :: AtHead(F, g, mem, t, j)
    ensures j <= g.k && forall mem :: AtHead(F, g, mem, t, j) ==> t.mem == mem
  {
  }

  /** The four copies at the start establish the loop head. */
  lemma Prologue(F: Fpu, g: Args, mem: seq<Byte>)
    requires MovExact(F) && g.Fits(|mem|)
    ensures var t := Thread(0, LaunchLane(0, g.Words()), mem, 0);
            ThreadRun(F, GEMM, t, 4).Some? && AtHead(F, g, mem, ThreadRun(F, GEMM, t, 4).value, 0)
  {
    hide Runs, ThreadStep, Times, MovExact;
    var t := Thread(0, LaunchLane(0, g.Words()), mem, 0);
    forall r | 0 <= r < 9 ensures t.lane.s[16 + r] == g.Words()[r] { LaunchedArgs(g.Words(), r); }
    ReadArgs(g, t.lane);
    TimesNext(g.stepB, 0);
    assert ThreadRun(F, GEMM, t, 0) == Some(t);
    hide ThreadRun, LaunchLane;
    var u := t;
    MovStep(F, GEMM, u, 1, 0);
    Then(F, GEMM, t, 0, u);
    u := Wrote(u, 1, 0);
    MovStep(F, GEMM, u, 2, 16);
    Then(F, GEMM, t, 1, u);
    u := Wrote(u, 2, g.a);
    MovStep(F, GEMM, u, 3, 17);
    Then(F, GEMM, t, 2, u);
    u := Wrote(u, 3, g.b);
    MovStep(F, GEMM, u, 4, 19);
    Then(F, GEMM, t, 3, u);
    u := Wrote(u, 4, g.k);
  }

  /** The loop test succeeds: the sum is scaled, combined with the old value and stored. */
  lemma Epilogue(F: Fpu, g: Args, t: Thread) returns (u: Thread)
    requires AtHead(F, g, t.mem, t, g.k) && g.Fits(|t.mem|)
    ensures ThreadRun(F, GEMM, t, 7) == Some(u) && u.at == 18 && u.insns == t.insns + 7
    ensures u.mem == Write32(t.mem, g.c, Element(F, t.mem, g))
  {
    hide Acc, Times, Read32, Write32, Runs, ThreadStep, ThreadRun;
    ReadArgs(g, t.lane);
    CmpBranchSteps(F, GEMM, t, 4, 0, 7);
    u := t.(at := 13, lane := SetP(t.lane, 0, 1), insns := t.insns + 2);
    var v := Combine(F, g, u, Acc(F, t.mem, g, g.k));
    RunConcat(F, GEMM, t, 2, 5);
    u := v;
  }

  lemma Combine(F: Fpu, g: Args, t: Thread, sum: Word) returns (u: Thread)
    requires t.at == 13 && t.lane.Valid() && t.lane.s[1] == sum && ArgsIn(g, t.lane)
    requires g.c + 4 <= |t.mem| < 0x4000_0000
    ensures ThreadRun(F, GEMM, t, 5) == Some(u) && u.at == 18 && u.insns == t.insns + 5
    ensures u.mem == Write32(t.mem, g.c, (F.binary)(ADD, (F.binary)(MUL, sum, g.alpha),
                                           (F.binary)(MUL, g.beta, Read32(t.mem, g.c))))
  {
    hide ThreadRun, Read32, Write32;
    var v := Scale(F, g, t, sum);
    u := AddAndStore(F, g, v);
    RunConcat(F, GEMM, t, 3, 2);
  }

  /** The sum and the old value are scaled. */
  lemma Scale(F: Fpu, g: Args, t: Thread, sum: Word) returns (u: Thread)
    requires t.at == 13 && t.lane.Valid() && t.lane.s[1] == sum && ArgsIn(g, t.lane)
    requires g.c + 4 <= |t.mem| < 0x4000_0000
    ensures ThreadRun(F, GEMM, t, 3) == Some(u) && u.at == 16 && u.insns == t.insns + 3 && u.mem == t.mem
    ensures u.lane.Valid() && u.lane.s[18] == g.c && u.lane.s[1] == (F.binary)(MUL, sum, g.alpha)
    ensures u.lane.s[10] == (F.binary)(MUL, g.beta, Read32(t.mem, g.c))
  {
    hide Runs, ThreadStep, Read32;
    ReadArgs(g, t.lane);
    u := t;
    assert ThreadRun(F, GEMM, t, 0) == Some(t);
    hide ThreadRun;
    FloatStep(F, GEMM, u, MUL, 1, 1, 23);
    Then(F, GEMM, t, 0, u);
    u := Wrote(u, 1, (F.binary)(MUL, sum, g.alpha));
    LoadStep(F, GEMM, u, 7, 18);
    Then(F, GEMM, t, 1, u);
    u := Wrote(u, 7, Read32(t.mem, g.c));
    FloatStep(F, GEMM, u, MUL, 10, 24, 7);
    Then(F, GEMM, t, 2, u);
    u := Wrote(u, 10, (F.binary)(MUL, g.beta, Read32(t.mem, g.c)));
  }

  /** They are added and stored. */
  lemma AddAndStore(F: Fpu, g: Args, t: Thread) returns (u: Thread)
    requires t.at == 16 && t.lane.Valid() && t.lane.s[18] == g.c && g.c + 4 <= |t.mem| < 0x4000_0000
    ensures ThreadRun(F, GEMM, t, 2) == Some(u) && u.at == 18 && u.insns == t.insns + 2
    ensures u.mem == Write32(t.mem, g.c, (F.binary)(ADD, t.lane.s[1], t.lane.s[10]))
  {
    hide Runs, ThreadStep, Write32;
    u := t;
    assert ThreadRun(F, GEMM, t, 0) == Some(t);
    hide ThreadRun;
    FloatStep(F, GEMM, u, ADD, 1, 1, 10);
    Then(F, GEMM, t, 0, u);
    u := Wrote(u, 1, (F.binary)(ADD, u.lane.s[1], u.lane.s[10]));
    StoreStep(F, GEMM, u, 18, 1);
    Then(F, GEMM, t, 1, u);
    u := u.(at := 18, mem := Write32(t.mem, g.c, u.lane.s[1]), insns := u.insns + 1);
  }

  lemma GemmLockstep()
    ensures Lockstep(GEMM, 1)
  {
    hide OpCode, OpOf;
  }

  /**
    One launch of the kernel: it halts after exactly 9k + 12 instructions, having stored one
    element and touched nothing else.
   */
  lemma GemmLaunch(F: Fpu, code: seq<Code>, base: Word, g: Args, mem: seq<Byte>, max: nat)
    requires Loaded(code, base, GEMM) && MovExact(F) && g.Fits(|mem|) && 9 * g.k + 12 <= max
    ensures var r := Run(F, code, Launch(WARP_SIZE, base, g.Words(), mem), max);
            && r.status == Halted && r.dev.insns == 9 * g.k + 12
            && r.dev.mem == Write32(mem, g.c, Element(F, mem, g))
  {
    hide ThreadRun, AtHead, Run, Loaded, Lockstep, Write32, Element, MovExact;
    var t := Thread(0, LaunchLane(0, g.Words()), mem, 0);
    Prologue(F, g, mem);
    var head := ThreadRun(F, GEMM, t, 4).value;
    HeadBound(F, g, head, 0);
    Loop(F, g, head, 0);
    RunConcat(F, GEMM, t, 4, 9 * g.k);
    var done := ThreadRun(F, GEMM, head, 9 * g.k).value;
    HeadBound(F, g, done, g.k);
    var u := Epilogue(F, g, done);
    RunConcat(F, GEMM, t, 4 + 9 * g.k, 7);
    HeadInsns(F, g, done, g.k);
    GemmLockstep();
    WholeRun(F, code, base, GEMM, 1, g.Words(), mem, 9 * g.k + 11, u, max);
  }

  lemma HeadInsns(F: Fpu, g: Args, t: Thread, j: nat)
    requires AtHead(F, g, t.mem, t, j)
    ensures t.insns == 4 + 9 * j
  {
  }
}
