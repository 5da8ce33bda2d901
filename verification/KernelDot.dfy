/** The dot-product kernel. */
module KernelDot {
  import opened Bits
  import opened BradVector
  import opened Bvrt
  import opened BvrtThread
  import opened Kernels

  /** S16 = x, S17 = y, S18 = result, S19 = count, S20 = 4, S21 = 1. */
  const DOT: seq<Insn> := [
    Mov(23, 16), Mov(24, 17), Mov(25, 19), Mov(26, 0),
    // dloop:
    Load(1, 23), Load(2, 24), Reg3(MAD, 26, 1, 2),
    Reg3(IADD, 23, 23, 20), Reg3(IADD, 24, 24, 20), Reg3(ISUB, 25, 25, 21),
    Cmp(0, 25, 0), BranchIf(0, 1), Branch(-9),
    // ddone:
    StoreTo(18, 26), Exit()
  ]

  datatype Args = Args(x: nat, y: nat, out: nat, n: nat) {
    predicate Fits(size: nat) {
      size < 0x4000_0000 && 0 < n && x + 4 * n <= size && y + 4 * n <= size && out + 4 <= size
    }

    function Words(): seq<Word>
      requires x < WORD && y < WORD && out < WORD && n < WORD
    { [x, y, out, n, 4, 1] }
  }

  function Sum(F: Fpu, mem: seq<Byte>, g: Args, j: nat): Word { MadFold(F, mem, g.x, g.y, 4, j) }

  ghost predicate ArgsIn(g: Args, w: Lane)
    requires w.Valid()
  {
    w.s[0] == 0 && w.s[18] == g.out && w.s[20] == 4 && w.s[21] == 1
  }

  /** The lane inside the loop, with j products done, at the given position. */
  ghost predicate Inside(F: Fpu, g: Args, mem: seq<Byte>, t: Thread, j: nat, at: nat, insns: nat) {
    && j <= g.n && t.at == at && t.mem == mem && t.insns == insns && t.lane.Valid() && ArgsIn(g, t.lane)
    && t.lane.s[26] == Sum(F, mem, g, j) && t.lane.s[23] == g.x + 4 * j && t.lane.s[24] == g.y + 4 * j
    && t.lane.s[25] == g.n - j
  }

  lemma Product(F: Fpu, t: Thread, x: nat, y: nat) returns (u: Thread)
    requires t.at == 4 && t.lane.Valid() && t.lane.s[23] == x && t.lane.s[24] == y
    requires x + 4 <= |t.mem| && y + 4 <= |t.mem| < 0x4000_0000
    ensures ThreadRun(F, DOT, t, 3) == Some(u) && u.at == 7 && u.mem == t.mem && u.insns == t.insns + 3
    ensures u.lane.Valid() && u.lane.s[26] == (F.mad)(Read32(t.mem, x), Read32(t.mem, y), t.lane.s[26])
    ensures forall r :: 0 <= r < 256 && r !in {1, 2, 26} ==> u.lane.s[r] == t.lane.s[r]
  {
    hide Runs, ThreadStep, Read32;
    u := t;
    assert ThreadRun(F, DOT, t, 0) == Some(t);
    hide ThreadRun;
    LoadStep(F, DOT, u, 1, 23);
    Then(F, DOT, t, 0, u);
    u := Wrote(u, 1, Read32(t.mem, x));
    LoadStep(F, DOT, u, 2, 24);
    Then(F, DOT, t, 1, u);
    u := Wrote(u, 2, Read32(t.mem, y));
    FloatStep(F, DOT, u, MAD, 26, 1, 2);
    Then(F, DOT, t, 2, u);
    u := Wrote(u, 26, (F.mad)(Read32(t.mem, x), Read32(t.mem, y), t.lane.s[26]));
  }

  /** Both pointers advance, the count goes down, and control leaves when it reaches zero. */
  lemma Advance(F: Fpu, g: Args, t: Thread, j: nat) returns (u: Thread)
    requires t.at == 7 && t.lane.Valid() && ArgsIn(g, t.lane) && j < g.n < 0x4000_0000
    requires t.lane.s[23] < 0x4000_0000 && t.lane.s[24] < 0x4000_0000 && t.lane.s[25] == g.n - j
    ensures ThreadRun(F, DOT, t, 5) == Some(u) && u.at == (if j + 1 == g.n then 13 else 12) && u.mem == t.mem
    ensures u.insns == t.insns + 5 && u.lane.Valid() && u.lane.s[25] == g.n - (j + 1)
    ensures u.lane.s[23] == t.lane.s[23] + 4 && u.lane.s[24] == t.lane.s[24] + 4
    ensures forall r :: 0 <= r < 256 && r !in {23, 24, 25} ==> u.lane.s[r] == t.lane.s[r]
  {
    hide Runs, ThreadStep;
    u := t;
    IntStep(F, DOT, u, IADD, 23, 23, 20);
    assert ThreadRun(F, DOT, t, 0) == Some(t);
    hide ThreadRun;
    Then(F, DOT, t, 0, u);
    u := Wrote(u, 23, t.lane.s[23] + 4);
    IntStep(F, DOT, u, IADD, 24, 24, 20);
    Then(F, DOT, t, 1, u);
    u := Wrote(u, 24, t.lane.s[24] + 4);
    IntStep(F, DOT, u, ISUB, 25, 25, 21);
    Then(F, DOT, t, 2, u);
    u := Wrote(u, 25, t.lane.s[25] - 1);
    CmpBranchSteps(F, DOT, u, 25, 0, 1);
    RunConcat(F, DOT, t, 3, 2);
    var eq := j + 1 == g.n;
    u := u.(at := if eq then 13 else 12, lane := SetP(u.lane, 0, if eq then 1 else 0), insns := u.insns + 2);
  }

  /** One pass through the loop body. */
  lemma Body(F: Fpu, g: Args, t: Thread, j: nat) returns (u: Thread)
    requires Inside(F, g, t.mem, t, j, 4, 4 + 9 * j) && j < g.n && g.Fits(|t.mem|)
    ensures ThreadRun(F, DOT, t, 8) == Some(u)
    ensures Inside(F, g, t.mem, u, j + 1, if j + 1 == g.n then 13 else 12, 12 + 9 * j)
  {
    hide ThreadRun, MadFold, Read32;
    NextFold(F, t.mem, g.x, g.y, 4, j);
    u := Product(F, t, g.x + 4 * j, g.y + 4 * j);
    var v := Advance(F, g, u, j);
    RunConcat(F, DOT, t, 3, 5);
    u := v;
  }

  lemma BackToHead(F: Fpu, g: Args, t: Thread, j: nat)
    requires Inside(F, g, t.mem, t, j, 12, 3 + 9 * j)
    ensures Inside(F, g, t.mem, t.(at := 4, insns := t.insns + 1), j, 4, 4 + 9 * j)
    ensures ThreadRun(F, DOT, t, 1) == Some(t.(at := 4, insns := t.insns + 1))
  {
    hide Runs, ThreadStep, MadFold;
    BranchStep(F, DOT, t, -9);
    assert ThreadRun(F, DOT, t, 0) == Some(t);
    hide ThreadRun;
    Then(F, DOT, t, 0, t);
  }

  /** From the loop head to the instruction after the loop. */
  lemma {:induction false} Loop(F: Fpu, g: Args, t: Thread, j: nat) returns (u: Thread)
    requires Inside(F, g, t.mem, t, j, 4, 4 + 9 * j) && j < g.n && g.Fits(|t.mem|)
    ensures ThreadRun(F, DOT, t, 9 * (g.n - j) - 1) == Some(u)
    ensures Inside(F, g, t.mem, u, g.n, 13, 3 + 9 * g.n)
    decreases g.n - j
  {
    hide ThreadRun, Sum, ArgsIn, Args.Fits;
    u := Body(F, g, t, j);
    if j + 1 < g.n {
      BackToHead(F, g, u, j + 1);
      RunConcat(F, DOT, t, 8, 1);
      var v := Loop(F, g, u.(at := 4, insns := u.insns + 1), j + 1);
      RunConcat(F, DOT, t, 9, 9 * (g.n - (j + 1)) - 1);
      u := v;
    }
  }

  lemma Prologue(F: Fpu, g: Args, mem: seq<Byte>) returns (u: Thread)
    requires MovExact(F) && g.Fits(|mem|)
    ensures var t := Thread(0, LaunchLane(0, g.Words()), mem, 0);
            ThreadRun(F, DOT, t, 4) == Some(u) && Inside(F, g, mem, u, 0, 4, 4)
  {
    hide Runs, ThreadStep, MovExact, MadFold;
    var t := Thread(0, LaunchLane(0, g.Words()), mem, 0);
    ReadArgs(g);
    NextFold(F, mem, g.x, g.y, 4, 0);
    assert ThreadRun(F, DOT, t, 0) == Some(t);
    hide ThreadRun, LaunchLane;
    u := t;
    MovStep(F, DOT, u, 23, 16);
    Then(F, DOT, t, 0, u);
    u := Wrote(u, 23, g.x);
    MovStep(F, DOT, u, 24, 17);
    Then(F, DOT, t, 1, u);
    u := Wrote(u, 24, g.y);
    MovStep(F, DOT, u, 25, 19);
    Then(F, DOT, t, 2, u);
    u := Wrote(u, 25, g.n);
    MovStep(F, DOT, u, 26, 0);
    Then(F, DOT, t, 3, u);
    u := Wrote(u, 26, 0);
  }

  lemma ReadArgs(g: Args)
    requires g.x < WORD && g.y < WORD && g.out < WORD && g.n < WORD
    ensures var w := LaunchLane(0, g.Words());
            w.Valid() && ArgsIn(g, w) && w.s[16] == g.x && w.s[17] == g.y && w.s[19] == g.n
  {
    LaunchedArgs(g.Words(), 0);
    LaunchedArgs(g.Words(), 1);
    LaunchedArgs(g.Words(), 2);
    LaunchedArgs(g.Words(), 3);
    LaunchedArgs(g.Words(), 4);
    LaunchedArgs(g.Words(), 5);
  }

  lemma Epilogue(F: Fpu, g: Args, t: Thread) returns (u: Thread)
    requires Inside(F, g, t.mem, t, g.n, 13, 3 + 9 * g.n) && g.Fits(|t.mem|)
    ensures ThreadRun(F, DOT, t, 1) == Some(u) && u.at == 14 && u.insns == 9 * g.n + 4
    ensures u.mem == Write32(t.mem, g.out, Sum(F, t.mem, g, g.n))
  {
    hide Runs, ThreadStep, MadFold, Write32;
    StoreStep(F, DOT, t, 18, 26);
    assert ThreadRun(F, DOT, t, 0) == Some(t);
    hide ThreadRun;
    Then(F, DOT, t, 0, t);
    u := ThreadStep(F, DOT, t);
  }

  lemma DotLockstep()
    ensures Lockstep(DOT, 5)
  {
    hide OpCode, OpOf;
  }

  /** One launch: it halts after exactly 9n + 5 instructions, having stored the sum and nothing else. */
  lemma DotLaunch(F: Fpu, code: seq<Code>, base: Word, g: Args, mem: seq<Byte>, max: nat)
    requires Loaded(code, base, DOT) && MovExact(F) && g.Fits(|mem|) && 9 * g.n + 5 <= max
    ensures var r := Run(F, code, Launch(WARP_SIZE, base, g.Words(), mem), max);
            && r.status == Halted && r.dev.insns == 9 * g.n + 5
            && r.dev.mem == Write32(mem, g.out, Sum(F, mem, g, g.n))
  {
    hide ThreadRun, Run, Loaded, Lockstep, Write32, Sum, MovExact, ArgsIn;
    var t := Thread(0, LaunchLane(0, g.Words()), mem, 0);
    var u := Prologue(F, g, mem);
    var v := Loop(F, g, u, 0);
    RunConcat(F, DOT, t, 4, 9 * g.n - 1);
    var w := Epilogue(F, g, v);
    RunConcat(F, DOT, t, 9 * g.n + 3, 1);
    DotLockstep();
    WholeRun(F, code, base, DOT, 5, g.Words(), mem, 9 * g.n + 4, w, max);
  }
}
