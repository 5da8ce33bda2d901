/** The SAXPY kernel. */
module KernelSaxpy {
  import opened Bits
  import opened BradVector
  import opened Bvrt
  import opened BvrtThread
  import opened Kernels

  /** S16 = x, S17 = y, S18 = result, S19 = a, S20 = count, S21 = 4, S22 = 1. */
  const SAXPY: seq<Insn> := [
    Mov(23, 16), Mov(24, 17), Mov(25, 18), Mov(26, 20),
    // loop:
    Load(1, 23), Load(2, 24), Reg3(MUL, 3, 19, 1), Reg3(ADD, 3, 3, 2), StoreTo(25, 3),
    Reg3(IADD, 23, 23, 21), Reg3(IADD, 24, 24, 21), Reg3(IADD, 25, 25, 21), Reg3(ISUB, 26, 26, 22),
    Cmp(0, 26, 0), BranchIf(0, 1), Branch(-12),
    // done:
    Exit()
  ]

  datatype Args = Args(x: nat, y: nat, out: nat, a: Word, n: nat) {
    /** The result range follows both operand ranges. */
    predicate Fits(size: nat) {
      size < 0x4000_0000 && 0 < n && x + 4 * n <= out && y + 4 * n <= out && out + 4 * n <= size
    }

    function Words(): seq<Word>
      requires x < WORD && y < WORD && out < WORD && n < WORD
    { [x, y, out, a, n, 4, 1] }
  }

  function Element(F: Fpu, mem: seq<Byte>, g: Args, i: nat): Word {
    (F.binary)(ADD, (F.binary)(MUL, g.a, Read32(mem, g.x + 4 * i)), Read32(mem, g.y + 4 * i))
  }

  /** Memory with the first j results stored. */
  function Stored(F: Fpu, mem: seq<Byte>, g: Args, j: nat): (r: seq<Byte>)
    ensures |r| == |mem|
  {
    if j == 0 then mem
    else Write32(Stored(F, mem, g, j - 1), g.out + 4 * (j - 1), Element(F, mem, g, j - 1))
  }

  /** Words below the results are as they were. */
  lemma {:induction false} StoredBelow(F: Fpu, mem: seq<Byte>, g: Args, j: nat, at: nat)
    requires at + 4 <= g.out
    ensures Read32(Stored(F, mem, g, j), at) == Read32(mem, at)
  {
    hide Read32, Write32, Element;
    if j > 0 {
      StoredBelow(F, mem, g, j - 1, at);
      ReadElsewhere(Stored(F, mem, g, j - 1), g.out + 4 * (j - 1), Element(F, mem, g, j - 1), at);
    }
  }

  ghost predicate ArgsIn(g: Args, w: Lane)
    requires w.Valid()
  {
    w.s[0] == 0 && w.s[19] == g.a && w.s[21] == 4 && w.s[22] == 1
  }

  /** The lane inside the loop, with j results stored, at the given position. */
  ghost predicate Inside(F: Fpu, g: Args, mem: seq<Byte>, t: Thread, j: nat, at: nat, insns: nat) {
    && j <= g.n && t.at == at && t.mem == Stored(F, mem, g, j) && t.insns == insns && t.lane.Valid()
    && ArgsIn(g, t.lane) && t.lane.s[23] == g.x + 4 * j && t.lane.s[24] == g.y + 4 * j
    && t.lane.s[25] == g.out + 4 * j && t.lane.s[26] == g.n - j
  }

  /** Two words are fetched, combined and stored. */
  lemma Combine(F: Fpu, t: Thread, x: nat, y: nat, out: nat) returns (u: Thread)
    requires t.at == 4 && t.lane.Valid() && t.lane.s[23] == x && t.lane.s[24] == y && t.lane.s[25] == out
    requires x + 4 <= |t.mem| && y + 4 <= |t.mem| && out + 4 <= |t.mem| < 0x4000_0000
    ensures ThreadRun(F, SAXPY, t, 5) == Some(u) && u.at == 9 && u.insns == t.insns + 5 && u.lane.Valid()
    ensures u.mem == Write32(t.mem, out, (F.binary)(ADD, (F.binary)(MUL, t.lane.s[19], Read32(t.mem, x)),
                                                    Read32(t.mem, y)))
    ensures forall r :: 0 <= r < 256 && r !in {1, 2, 3} ==> u.lane.s[r] == t.lane.s[r]
  {
    hide Runs, ThreadStep, Read32, Write32;
    u := t;
    assert ThreadRun(F, SAXPY, t, 0) == Some(t);
    hide ThreadRun;
    LoadStep(F, SAXPY, u, 1, 23);
    Then(F, SAXPY, t, 0, u);
    u := Wrote(u, 1, Read32(t.mem, x));
    LoadStep(F, SAXPY, u, 2, 24);
    Then(F, SAXPY, t, 1, u);
    u := Wrote(u, 2, Read32(t.mem, y));
    FloatStep(F, SAXPY, u, MUL, 3, 19, 1);
    Then(F, SAXPY, t, 2, u);
    u := Wrote(u, 3, (F.binary)(MUL, t.lane.s[19], u.lane.s[1]));
    FloatStep(F, SAXPY, u, ADD, 3, 3, 2);
    Then(F, SAXPY, t, 3, u);
    u := Wrote(u, 3, (F.binary)(ADD, u.lane.s[3], u.lane.s[2]));
    StoreStep(F, SAXPY, u, 25, 3);
    Then(F, SAXPY, t, 4, u);
    u := u.(at := 9, mem := Write32(t.mem, out, u.lane.s[3]), insns := u.insns + 1);
  }

  /** The three pointers advance, the count goes down, and control leaves when it reaches zero. */
  lemma Advance(F: Fpu, g: Args, t: Thread, j: nat) returns (u: Thread)
    requires t.at == 9 && t.lane.Valid() && ArgsIn(g, t.lane) && j < g.n < 0x4000_0000
    requires t.lane.s[23] < 0x4000_0000 && t.lane.s[24] < 0x4000_0000 && t.lane.s[25] < 0x4000_0000
    requires t.lane.s[26] == g.n - j
    ensures ThreadRun(F, SAXPY, t, 6) == Some(u) && u.at == (if j + 1 == g.n then 16 else 15) && u.mem == t.mem
    ensures u.insns == t.insns + 6 && u.lane.Valid() && u.lane.s[26] == g.n - (j + 1)
    ensures u.lane.s[23] == t.lane.s[23] + 4 && u.lane.s[24] == t.lane.s[24] + 4
    ensures u.lane.s[25] == t.lane.s[25] + 4
    ensures forall r :: 0 <= r < 256 && r !in {23, 24, 25, 26} ==> u.lane.s[r] == t.lane.s[r]
  {
    hide Runs, ThreadStep;
    u := t;
    IntStep(F, SAXPY, u, IADD, 23, 23, 21);
    assert ThreadRun(F, SAXPY, t, 0) == Some(t);
    hide ThreadRun;
    Then(F, SAXPY, t, 0, u);
    u := Wrote(u, 23, t.lane.s[23] + 4);
    IntStep(F, SAXPY, u, IADD, 24, 24, 21);
    Then(F, SAXPY, t, 1, u);
    u := Wrote(u, 24, t.lane.s[24] + 4);
    IntStep(F, SAXPY, u, IADD, 25, 25, 21);
    Then(F, SAXPY, t, 2, u);
    u := Wrote(u, 25, t.lane.s[25] + 4);
    IntStep(F, SAXPY, u, ISUB, 26, 26, 22);
    Then(F, SAXPY, t, 3, u);
    u := Wrote(u, 26, t.lane.s[26] - 1);
    CmpBranchSteps(F, SAXPY, u, 26, 0, 1);
    RunConcat(F, SAXPY, t, 4, 2);
    var eq := j + 1 == g.n;
    u := u.(at := if eq then 16 else 15, lane := SetP(u.lane, 0, if eq then 1 else 0), insns := u.insns + 2);
  }

  lemma Body(F: Fpu, g: Args, mem: seq<Byte>, t: Thread, j: nat) returns (u: Thread)
    requires Inside(F, g, mem, t, j, 4, 4 + 12 * j) && j < g.n && g.Fits(|mem|)
    ensures ThreadRun(F, SAXPY, t, 11) == Some(u)
    ensures Inside(F, g, mem, u, j + 1, if j + 1 == g.n then 16 else 15, 15 + 12 * j)
  {
    hide ThreadRun, Read32, Write32;
    StoredBelow(F, mem, g, j, g.x + 4 * j);
    StoredBelow(F, mem, g, j, g.y + 4 * j);
    u := Combine(F, t, g.x + 4 * j, g.y + 4 * j, g.out + 4 * j);
    var v := Advance(F, g, u, j);
    RunConcat(F, SAXPY, t, 5, 6);
    u := v;
  }

  lemma BackToHead(F: Fpu, g: Args, mem: seq<Byte>, t: Thread, j: nat)
    requires Inside(F, g, mem, t, j, 15, 3 + 12 * j)
    ensures Inside(F, g, mem, t.(at := 4, insns := t.insns + 1), j, 4, 4 + 12 * j)
    ensures ThreadRun(F, SAXPY, t, 1) == Some(t.(at := 4, insns := t.insns + 1))
  {
    hide Runs, ThreadStep, Stored;
    BranchStep(F, SAXPY, t, -12);
    assert ThreadRun(F, SAXPY, t, 0) == Some(t);
    hide ThreadRun;
    Then(F, SAXPY, t, 0, t);
  }

  lemma {:induction false} Loop(F: Fpu, g: Args, mem: seq<Byte>, t: Thread, j: nat) returns (u: Thread)
    requires Inside(F, g, mem, t, j, 4, 4 + 12 * j) && j < g.n && g.Fits(|mem|)
    ensures ThreadRun(F, SAXPY, t, 12 * (g.n - j) - 1) == Some(u)
    ensures Inside(F, g, mem, u, g.n, 16, 3 + 12 * g.n)
    decreases g.n - j
  {
    hide ThreadRun, Stored, ArgsIn, Args.Fits;
    u := Body(F, g, mem, t, j);
    if j + 1 < g.n {
      BackToHead(F, g, mem, u, j + 1);
      RunConcat(F, SAXPY, t, 11, 1);
      var v := Loop(F, g, mem, u.(at := 4, insns := u.insns + 1), j + 1);
      RunConcat(F, SAXPY, t, 12, 12 * (g.n - (j + 1)) - 1);
      u := v;
    }
  }

  lemma Prologue(F: Fpu, g: Args, mem: seq<Byte>) returns (u: Thread)
    requires MovExact(F) && g.Fits(|mem|)
    ensures var t := Thread(0, LaunchLane(0, g.Words()), mem, 0);
            ThreadRun(F, SAXPY, t, 4) == Some(u) && Inside(F, g, mem, u, 0, 4, 4)
  {
    hide Runs, ThreadStep, MovExact;
    var t := Thread(0, LaunchLane(0, g.Words()), mem, 0);
    ReadArgs(g);
    assert ThreadRun(F, SAXPY, t, 0) == Some(t);
    hide ThreadRun, LaunchLane;
    u := t;
    MovStep(F, SAXPY, u, 23, 16);
    Then(F, SAXPY, t, 0, u);
    u := Wrote(u, 23, g.x);
    MovStep(F, SAXPY, u, 24, 17);
    Then(F, SAXPY, t, 1, u);
    u := Wrote(u, 24, g.y);
    MovStep(F, SAXPY, u, 25, 18);
    Then(F, SAXPY, t, 2, u);
    u := Wrote(u, 25, g.out);
    MovStep(F, SAXPY, u, 26, 20);
    Then(F, SAXPY, t, 3, u);
    u := Wrote(u, 26, g.n);
  }

  lemma ReadArgs(g: Args)
    requires g.x < WORD && g.y < WORD && g.out < WORD && g.n < WORD
    ensures var w := LaunchLane(0, g.Words());
            && w.Valid() && ArgsIn(g, w) && w.s[16] == g.x && w.s[17] == g.y && w.s[18] == g.out
            && w.s[20] == g.n
  {
    LaunchedArgs(g.Words(), 0);
    LaunchedArgs(g.Words(), 1);
    LaunchedArgs(g.Words(), 2);
    LaunchedArgs(g.Words(), 3);
    LaunchedArgs(g.Words(), 4);
    LaunchedArgs(g.Words(), 5);
    LaunchedArgs(g.Words(), 6);
  }

  lemma SaxpyLockstep()
    ensures Lockstep(SAXPY, 5)
  {
    hide OpCode, OpOf;
  }

  /** One launch: it halts after exactly 12n + 4 instructions, having stored the n results and nothing else. */
  lemma SaxpyLaunch(F: Fpu, code: seq<Code>, base: Word, g: Args, mem: seq<Byte>, max: nat)
    requires Loaded(code, base, SAXPY) && MovExact(F) && g.Fits(|mem|) && 12 * g.n + 4 <= max
    ensures var r := Run(F, code, Launch(WARP_SIZE, base, g.Words(), mem), max);
            && r.status == Halted && r.dev.insns == 12 * g.n + 4 && r.dev.mem == Stored(F, mem, g, g.n)
  {
    hide ThreadRun, Run, Loaded, Lockstep, Stored, MovExact, ArgsIn;
    var t := Thread(0, LaunchLane(0, g.Words()), mem, 0);
    var u := Prologue(F, g, mem);
    var v := Loop(F, g, mem, u, 0);
    RunConcat(F, SAXPY, t, 4, 12 * g.n - 1);
    SaxpyLockstep();
    WholeRun(F, code, base, SAXPY, 5, g.Words(), mem, 12 * g.n + 3, v, max);
  }
}
