/** A program on every core: a loop that counts a register down, from any start value. */
module BradCountdown {
  import opened Bits
  import opened BradCore
  import opened BradPipeline
  import opened BradRuns
  import opened BradTiming
  import opened BradStale

  /** ADDI r1, r1, -1 and BNZ r1, -8; memory ends behind them. */
  const LOOP: seq<Byte> := [0xFF, 0xFF, 0x10, 0x81, 0xF8, 0xFF, 0x10, 0xC0]
  const DECREMENT := Insn(ADDI, 1, 1, 0, -1)
  const REPEAT := Insn(BNZ, 0, 1, 0, -8)

  lemma LoopFetches()
    ensures Fetch(LOOP, 0) == Some(DECREMENT) && Fetch(LOOP, 4) == Some(REPEAT) && Fetch(LOOP, 8) == None
  {
    assert Read32(LOOP, 0) == 0x8110_FFFF && Read32(LOOP, 4) == 0xC010_FFF8;
    assert Decode(0x8110_FFFF) == DECREMENT && Decode(0xC010_FFF8) == REPEAT;
  }

  ghost predicate Loaded(m: Machine) { |m.regs| == 16 && m.mem == LOOP }

  /** How often the loop is run; from 0 the counter goes once around. */
  function Rounds(m: Machine): (n: nat)
    requires Loaded(m)
    ensures 0 < n <= 0x1_0000_0000
  {
    if m.regs[1] == 0 then 0x1_0000_0000 else m.regs[1]
  }

  /** The state after i rounds. */
  ghost function Round(m: Machine, i: nat): Isa
    requires Loaded(m) && i <= Rounds(m)
  {
    Isa(m.(regs := m.regs[1 := (m.regs[1] - i) % WORD], retired := m.retired + 2 * i, branches := m.branches + i,
           branchesTaken := m.branchesTaken + if i < Rounds(m) then i else i - 1),
        if i < Rounds(m) then 0 else 8)
  }

  /** And in the middle of the next one. */
  ghost function Midway(m: Machine, i: nat): Isa
    requires Loaded(m) && i < Rounds(m)
  {
    Isa(m.(regs := m.regs[1 := (m.regs[1] - (i + 1)) % WORD], retired := m.retired + 2 * i + 1,
           branches := m.branches + i, branchesTaken := m.branchesTaken + i), 4)
  }

  lemma FirstHalf(lite: bool, m: Machine, i: nat)
    requires Loaded(m) && i < Rounds(m)
    ensures IsaStep(lite, Round(m, i)) == Midway(m, i)
  {
    hide Fetch, LOOP;
    LoopFetches();
    var s := Round(m, i);
    var o := Execute(lite, s.m, DECREMENT, 0);
    assert (m.regs[1] - i) % WORD == s.m.regs[1];
    Decremented(m.regs[1], i);
    assert o.m.regs == s.m.regs[1 := (m.regs[1] - (i + 1)) % WORD] == m.regs[1 := (m.regs[1] - (i + 1)) % WORD];
  }

  lemma Decremented(n: Word, i: nat)
    ensures ((n - i) % WORD - 1) % WORD == (n - (i + 1)) % WORD
  {
  }

  /** The counter is 0 only after the last round. */
  lemma ZeroAtEnd(m: Machine, i: nat)
    requires Loaded(m) && i < Rounds(m)
    ensures (m.regs[1] - (i + 1)) % WORD == 0 <==> i + 1 == Rounds(m)
  {
  }

  lemma SecondHalf(lite: bool, m: Machine, i: nat)
    requires Loaded(m) && i < Rounds(m)
    ensures IsaStep(lite, Midway(m, i)) == Round(m, i + 1)
  {
    hide Fetch, LOOP;
    LoopFetches();
    ZeroAtEnd(m, i);
  }

  lemma {:induction false} AfterRounds(lite: bool, m: Machine, i: nat)
    requires Loaded(m) && i <= Rounds(m)
    ensures IsaRun(lite, Isa(m, 0), 2 * i) == Round(m, i)
    ensures i < Rounds(m) ==> IsaRun(lite, Isa(m, 0), 2 * i + 1) == Midway(m, i)
  {
    hide IsaStep, Round, Midway, LOOP;
    if i > 0 {
      AfterRounds(lite, m, i - 1);
      SecondHalf(lite, m, i - 1);
      assert 2 * (i - 1) + 2 == 2 * i;
    } else {
      StartsAtRound(m);
    }
    if i < Rounds(m) { FirstHalf(lite, m, i); }
  }

  lemma StartsAtRound(m: Machine)
    requires Loaded(m)
    ensures Round(m, 0) == Isa(m, 0)
  {
    assert m.regs[1 := m.regs[1] % WORD] == m.regs;
  }

  // ---------- On the pipelines ----------

  /** No instruction of the loop changes memory. */
  lemma {:induction false} MemoryStays(lite: bool, m: Machine, n: nat)
    requires Loaded(m)
    ensures var s := IsaRun(lite, Isa(m, 0), n); s.m.mem == LOOP && s.pc in {0, 4, 8}
  {
    hide IsaStep, LOOP;
    if n > 0 {
      MemoryStays(lite, m, n - 1);
      LoopStays(lite, IsaRun(lite, Isa(m, 0), n - 1));
    }
  }

  lemma LoopStays(lite: bool, s: Isa)
    requires s.m.mem == LOOP && s.pc in {0, 4, 8}
    ensures IsaStep(lite, s).m.mem == LOOP && IsaStep(lite, s).pc in {0, 4, 8}
  {
    hide Fetch, LOOP, Alu, Read32, Write32, SetLiteReg;
    LoopFetches();
    if s.pc == 0 {
      KeepsMemory(lite, s.m);
    }
  }

  lemma KeepsMemory(lite: bool, m: Machine)
    ensures var o := Execute(lite, m, DECREMENT, 0); o.m.mem == m.mem && !o.taken
  {
  }

  lemma LoopIsFresh(model: Model, m: Machine)
    requires Loaded(m)
    ensures FreshRun(CourseOf(model, m, 0))
  {
    hide Fetch, IsaRun, FreshRun, LOOP;
    var g := CourseOf(model, m, 0);
    forall n: nat ensures SafeAt(g.lite, IsaRun(g.lite, g.start, n), g.stage) {
      MemoryStays(g.lite, m, n);
      LoopFetches();
    }
    SafeRunIsFresh(g);
  }

  lemma LoopHalts(model: Model, m: Machine)
    requires Loaded(m)
    ensures HaltsAt(CourseOf(model, m, 0), 2 * Rounds(m))
  {
    hide Fetch, IsaRun, LOOP;
    LoopFetches();
    var g := CourseOf(model, m, 0);
    AfterRounds(g.lite, m, Rounds(m));
    forall k: nat | k < 2 * Rounds(m) ensures !Halted(g.At(k)) {
      AfterRounds(g.lite, m, k / 2);
      assert k == 2 * (k / 2) || k == 2 * (k / 2) + 1;
    }
  }

  /** Every round but the last ends with a taken branch. */
  lemma TakenBranches(model: Model, m: Machine)
    requires Loaded(m)
    ensures var g, n := CourseOf(model, m, 0), Rounds(m); Taken(g, 2 * n) == n - 1 && g.Since(2 * n) < 2 * n
  {
    hide IsaRun, LOOP, Course.TakenAt;
    var g, n := CourseOf(model, m, 0), Rounds(m);
    AfterRounds(g.lite, m, n);
    AfterRounds(g.lite, m, n - 1);
    TakenCounter(g, 2 * n);
    TakenCounter(g, 2 * n - 1);
    assert g.At(2 * n - 1) == Midway(m, n - 1);
    assert !g.TakenAt(2 * n - 1);
  }

  /** The number of cycles in which the loop runs n times. */
  function LoopCycles(model: Model, n: nat): int {
    match model
    case Phoenix => 2 * n + 6 * (n - 1) + 10
    case Falcon => 2 * n + 3 * (n - 1) + 3
    case Kestrel => 2 * n + 4 * (n - 1) + 8
    case FalconLite => 2 * n + (n - 1) + 1
  }

  /**
    On each of the four pipelines the loop runs for exactly that many cycles, from every start
    value, and leaves 0 in the register and everything else as it was, but for the counters.
   */
  lemma CountsDown(model: Model, m: Machine, t: nat)
    requires Loaded(m)
    ensures var c, n := Cycles(model, Fresh(model, m, 0), t), Rounds(m);
            && (c.running <==> t < LoopCycles(model, n))
            && (!c.running ==>
                  && c.m.regs == m.regs[1 := 0] && c.m.mem == m.mem && c.m.retired == m.retired + 2 * n
                  && c.m.branches == m.branches + n && c.m.branchesTaken == m.branchesTaken + n - 1
                  && c.hazards == n - 1 && c.cycles == LoopCycles(model, n) - (n - 1))
  {
    hide Cycles, IsaRun, FreshRun, HaltsAt, StopTime, LoopCycles, Round, LOOP;
    var g, n := CourseOf(model, m, 0), Rounds(m);
    LoopIsFresh(model, m);
    LoopHalts(model, m);
    TakenBranches(model, m);
    LoopStopTime(model, m);
    AfterRounds(g.lite, m, n);
    LastRound(m);
    StopsExactly(model, m, 0, 2 * n, t);
  }

  lemma LoopStopTime(model: Model, m: Machine)
    requires Loaded(m)
    ensures StopTime(model, CourseOf(model, m, 0), 2 * Rounds(m)) == LoopCycles(model, Rounds(m))
  {
    hide Taken, Course.Since;
    TakenBranches(model, m);
    match model
    case Phoenix => assert model.ExecStage() == 6 && model.Depth() == 10;
    case Falcon => assert model.ExecStage() == 3;
    case Kestrel => assert model.ExecStage() == 4 && model.Depth() == 8;
    case FalconLite => assert model.ExecStage() == 1;
  }

  lemma LastRound(m: Machine)
    requires Loaded(m)
    ensures var e, n := Round(m, Rounds(m)).m, Rounds(m);
            && e.regs == m.regs[1 := 0] && e.mem == m.mem && e.retired == m.retired + 2 * n
            && e.branches == m.branches + n && e.branchesTaken == m.branchesTaken + n - 1
  {
    assert (m.regs[1] - Rounds(m)) % WORD == 0;
  }
}
