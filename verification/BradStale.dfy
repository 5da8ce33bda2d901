/** When instructions cannot go stale, and programs whose instructions do. */
module BradStale {
  import opened Bits
  import opened BradCore
  import opened BradPipeline
  import opened BradRuns

  // ---------- Conditions that a caller can check ----------

  /** Executing the instruction at s leaves the next w - 1 instruction words as they were. */
  ghost predicate SafeAt(lite: bool, s: Isa, w: nat) {
    var d := Fetch(s.m.mem, s.pc);
    d.Some? ==>
      var after := Execute(lite, s.m, d.value, s.pc).m.mem;
      forall i :: 1 <= i < w ==> Fetch(after, (s.pc + 4 * i) % WORD) == Fetch(s.m.mem, (s.pc + 4 * i) % WORD)
  }

  ghost predicate SafeRun(lite: bool, s: Isa, w: nat) {
    forall n: nat :: SafeAt(lite, IsaRun(lite, s, n), w)
  }

  /** Enough for every instruction to be fresh: no store reaches the words fetched behind it. */
  lemma SafeRunIsFresh(g: Course)
    requires 1 <= g.stage && SafeRun(g.lite, g.start, g.stage)
    ensures FreshRun(g)
  {
    hide Fetch, IsaRun, SafeRun;
    forall n: nat ensures g.FreshAt(n) { Unchanged(g, n, n - g.Seen(n, n)); }
  }

  /** The d instructions before instruction n, none a taken branch, have not changed it. */
  lemma {:induction false} Unchanged(g: Course, n: nat, d: nat)
    requires 1 <= g.stage && SafeRun(g.lite, g.start, g.stage) && d <= n - g.Seen(n, n)
    ensures Fetch(g.At(n - d).m.mem, g.At(n).pc) == Fetch(g.At(n).m.mem, g.At(n).pc)
    ensures g.Since(n - d) == g.Since(n) && (!Halted(g.At(n)) ==> g.At(n).pc == (g.At(n - d).pc + 4 * d) % WORD)
  {
    hide Fetch, Execute, IsaRun;
    if d > 0 {
      Unchanged(g, n, d - 1);
      var s := n - d;
      assert SafeAt(g.lite, IsaRun(g.lite, g.start, s), g.stage);
      NotTaken(g, s);
      if Halted(g.At(n)) {
        SameSize(g, s, n);
        assert Fetch(g.At(s).m.mem, g.At(n).pc) == Fetch(g.At(n).m.mem, g.At(n).pc) by { BothNone(g, s, n); }
      } else {
        StepsOn(g, s, n);
        PcShift(g.At(s).pc, d);
      }
    }
  }

  lemma BothNone(g: Course, q: nat, n: nat)
    requires Halted(g.At(n))
    ensures Fetch(g.At(q).m.mem, g.At(n).pc) == Fetch(g.At(n).m.mem, g.At(n).pc)
  {
    hide Fetch, Course.At;
    SameSize(g, q, n);
  }

  lemma PcShift(pc: Word, d: nat)
    requires d > 0
    ensures ((pc + 4) % WORD + 4 * (d - 1)) % WORD == (pc + 4 * d) % WORD
  {
  }

  lemma NotTaken(g: Course, s: nat)
    requires g.Since(s + 1) != s + 1
    ensures !g.TakenAt(s) && g.Since(s) == g.Since(s + 1)
  {
    hide Course.TakenAt;
  }

  /** A run that is not over at n has not halted before, and steps on without a branch. */
  lemma StepsOn(g: Course, s: nat, n: nat)
    requires s < n && !Halted(g.At(n)) && !g.TakenAt(s)
    ensures Fetch(g.At(s).m.mem, g.At(s).pc).Some?
    ensures g.At(s + 1).pc == (g.At(s).pc + 4) % WORD
    ensures g.At(s + 1).m == Execute(g.lite, g.At(s).m, Fetch(g.At(s).m.mem, g.At(s).pc).value, g.At(s).pc).m
  {
    hide Fetch, Execute;
    if Halted(g.At(s)) { HaltedStays(g.lite, g.start, s, n - s); }
  }

  /** What a caller can check of a store: it stays clear of the next w - 1 instruction words. */
  lemma StoreElsewhereIsSafe(lite: bool, s: Isa, w: nat)
    requires s.pc + 4 * w <= WORD
    requires var d := Fetch(s.m.mem, s.pc);
             d.Some? && d.value.op == STW ==>
               var addr := (Reg(s.m, lite, d.value.rs1) + d.value.imm) % WORD;
               addr <= s.pc || s.pc + 4 * w <= addr
    ensures SafeAt(lite, s, w)
  {
    hide Fetch, Execute, Decode;
    var d := Fetch(s.m.mem, s.pc);
    if d.Some? {
      var after := Execute(lite, s.m, d.value, s.pc).m.mem;
      MemoryAfter(lite, s.m, d.value, s.pc);
      forall i | 1 <= i < w ensures Fetch(after, (s.pc + 4 * i) % WORD) == Fetch(s.m.mem, (s.pc + 4 * i) % WORD) {
        if after != s.m.mem {
          FetchUnwritten(s.m.mem, (Reg(s.m, lite, d.value.rs1) + d.value.imm) % WORD,
                         Reg(s.m, lite, d.value.rs2), s.pc + 4 * i);
        }
      }
    }
  }

  lemma MemoryAfter(lite: bool, m: Machine, d: Insn, pc: Word)
    ensures var after := Execute(lite, m, d, pc).m.mem;
            after == m.mem || (d.op == STW
              && after == Write32(m.mem, (Reg(m, lite, d.rs1) + d.imm) % WORD, Reg(m, lite, d.rs2)))
  {
    hide Alu, Read32, Write32;
  }

  lemma FetchUnwritten(mem: seq<Byte>, addr: Word, v: Word, pc: Word)
    requires addr + 4 <= pc || pc + 4 <= addr
    ensures Fetch(Write32(mem, addr, v), pc) == Fetch(mem, pc)
  {
    hide Decode;
  }

  /** The Falcon-Lite core executes in stage 1, straight after the fetch: it is never stale. */
  lemma LiteNeverStale(m: Machine, entry: Word)
    ensures FreshRun(CourseOf(FalconLite, m, entry)) && NeverStale(FalconLite, m, entry)
  {
    hide Fetch, IsaRun, NeverStale;
    var g := CourseOf(FalconLite, m, entry);
    forall n: nat ensures g.FreshAt(n) { assert g.Seen(n, n) == n; }
    NeverStaleIff(FalconLite, m, entry);
  }

  // ---------- Self-modifying code ----------

  /** A program whose first instruction, STW, overwrites the second one, ADD, with ADDI r3, r3, 1. */
  const PATCH: Word := 0x8330_0001
  const STORE_INSN := Insn(STW, 0, 2, 1, 4)
  const STALE_INSN := Insn(ADD, 0, 0, 0, 0)
  const PATCH_INSN := Insn(ADDI, 3, 3, 0, 1)
  const PROGRAM: seq<Byte> := [4, 0, 0x21, 0xA0, 0, 0, 0, 0]
  const PATCHED: seq<Byte> := [4, 0, 0x21, 0xA0, 1, 0, 0x30, 0x83]
  const REGS: seq<Word> := [0, PATCH, 0, 0, 0, 0, 0, 0, 0, 0, 0, 0, 0, 0, 0, 0]

  function PatchingMachine(): Machine { Machine(REGS, PROGRAM, 0, 0, 0) }

  lemma PatchFetches()
    ensures Fetch(PROGRAM, 0) == Some(STORE_INSN) && Fetch(PROGRAM, 4) == Some(STALE_INSN)
    ensures Fetch(PATCHED, 4) == Some(PATCH_INSN)
    ensures Fetch(PROGRAM, 8) == None && Fetch(PATCHED, 8) == None
    ensures Write32(PROGRAM, 4, PATCH) == PATCHED
  {
    assert Read32(PROGRAM, 0) == 0xA021_0004 && Decode(0xA021_0004) == STORE_INSN;
    assert Read32(PROGRAM, 4) == 0 && Decode(0) == STALE_INSN;
    PatchedWord();
  }

  lemma PatchedWord()
    ensures Read32(PATCHED, 4) == PATCH && Decode(PATCH) == PATCH_INSN
    ensures Write32(PROGRAM, 4, PATCH) == PATCHED
  {
  }

  lemma PatchExecutes()
    ensures Execute(false, PatchingMachine(), STORE_INSN, 0) == Next(Machine(REGS, PATCHED, 1, 0, 0))
    ensures Execute(false, Machine(REGS, PATCHED, 1, 0, 0), PATCH_INSN, 4)
            == Next(Machine(REGS[3 := 1], PATCHED, 2, 0, 0))
    ensures Execute(false, Machine(REGS, PATCHED, 1, 0, 0), STALE_INSN, 4) == Next(Machine(REGS, PATCHED, 2, 0, 0))
  {
    PatchStores();
    PatchAdds();
  }

  lemma PatchStores()
    ensures Execute(false, PatchingMachine(), STORE_INSN, 0) == Next(Machine(REGS, PATCHED, 1, 0, 0))
  {
    hide Write32, Read32, Alu, ExecuteArithmetic, ExecuteBranch;
    PatchedWord();
  }

  lemma PatchAdds()
    ensures Execute(false, Machine(REGS, PATCHED, 1, 0, 0), PATCH_INSN, 4)
            == Next(Machine(REGS[3 := 1], PATCHED, 2, 0, 0))
    ensures Execute(false, Machine(REGS, PATCHED, 1, 0, 0), STALE_INSN, 4) == Next(Machine(REGS, PATCHED, 2, 0, 0))
  {
    hide Write32, Read32, ExecuteMemory, ExecuteBranch;
    assert REGS[0 := 0] == REGS;
  }

  /** On the Falcon core the pipeline runs the stale instruction and ends with other registers. */
  lemma StaleInstructionRuns()
    ensures var m := PatchingMachine();
            && !FreshRun(CourseOf(Falcon, m, 0)) && !NeverStale(Falcon, m, 0)
            && Halted(IsaRun(false, Isa(m, 0), 2)) && IsaRun(false, Isa(m, 0), 2).m.regs == REGS[3 := 1]
            && var c := Cycles(Falcon, Fresh(Falcon, m, 0), 5);
               !c.running && c.m.retired == 2 && c.m.regs == REGS
  {
    hide Fetch, Execute, NeverStale, FreshRun;
    PatchFetches();
    SequentialPatch();
    PipelinedPatch();
    DeepPipelinesStale(Falcon);
  }

  /** So does every core that executes later than in stage 1. */
  lemma DeepPipelinesStale(model: Model)
    requires !model.Lite()
    ensures !FreshRun(CourseOf(model, PatchingMachine(), 0)) && !NeverStale(model, PatchingMachine(), 0)
  {
    hide Fetch, Execute, NeverStale;
    PatchFetches();
    PatchExecutes();
    var g := CourseOf(model, PatchingMachine(), 0);
    NeverStaleIff(model, PatchingMachine(), 0);
    assert g.At(0) == Isa(PatchingMachine(), 0);
    assert g.At(1) == Isa(Machine(REGS, PATCHED, 1, 0, 0), 4);
    assert !g.TakenAt(0) && g.Since(1) == g.Since(0) == 0;
    assert g.Seen(1, 1) == 0;
    assert !g.FreshAt(1);
  }

  lemma SequentialPatch()
    ensures IsaRun(false, Isa(PatchingMachine(), 0), 2) == Isa(Machine(REGS[3 := 1], PATCHED, 2, 0, 0), 8)
  {
    hide Fetch, Execute;
    PatchFetches();
    PatchExecutes();
    var s0 := Isa(PatchingMachine(), 0);
    assert IsaRun(false, s0, 1) == IsaStep(false, s0) == Isa(Machine(REGS, PATCHED, 1, 0, 0), 4);
  }

  /** The Falcon core over the five cycles of the program. */
  function PatchTrace(n: nat): Core
    requires n <= 5
  {
    var i0, i1 := Some(Fetched(STORE_INSN, 0)), Some(Fetched(STALE_INSN, 4));
    var m0, m1, m2 := PatchingMachine(), Machine(REGS, PATCHED, 1, 0, 0), Machine(REGS, PATCHED, 2, 0, 0);
    match n
    case 0 => Fresh(Falcon, m0, 0)
    case 1 => Core(m0, 4, true, false, [i0, None, None, None, None], 1, 0)
    case 2 => Core(m0, 8, true, false, [i1, i0, None, None, None], 2, 0)
    case 3 => Core(m0, 8, true, true, [None, i1, i0, None, None], 3, 0)
    case 4 => Core(m1, 8, true, true, [None, None, i1, None, None], 4, 0)
    case _ => Core(m2, 8, false, true, [None, None, None, None, None], 5, 0)
  }

  lemma PatchCycle(n: nat)
    requires n < 5
    ensures |PatchTrace(n).stages| == 5 && PatchTrace(n).running
    ensures Cycle(Falcon, PatchTrace(n)) == PatchTrace(n + 1)
  {
    hide Fetch, Execute;
    PatchFetches();
    PatchExecutes();
    var c := PatchTrace(n);
    if n == 0 {
      assert Advance(c.stages) == [None, None, None, None, None];
    } else if n == 3 || n == 4 {
      assert c.stages[2].Some?;
      if n == 3 { assert PatchTrace(4).stages[2].Some?; }
    } else {
      assert PatchTrace(n + 1).stages[1].Some?;
    }
    assert Cycle(Falcon, c).stages == PatchTrace(n + 1).stages;
  }

  lemma PipelinedPatch()
    ensures var c := Cycles(Falcon, Fresh(Falcon, PatchingMachine(), 0), 5);
            !c.running && c.m == Machine(REGS, PATCHED, 2, 0, 0)
  {
    PatchRun(5);
  }

  lemma {:induction false} PatchRun(n: nat)
    requires n <= 5
    ensures Cycles(Falcon, Fresh(Falcon, PatchingMachine(), 0), n) == PatchTrace(n)
  {
    hide Cycle;
    if n > 0 {
      PatchRun(n - 1);
      PatchCycle(n - 1);
    }
  }

  // ---------- A store into words that are flushed ----------

  /** STW to address 8, JMP past it, and the word that is overwritten but never executed. */
  const JUMP_INSN := Insn(JMP, 0, 0, 0, 4)
  const STORE_AHEAD := Insn(STW, 0, 2, 1, 8)
  const FLUSHED: seq<Byte> := [8, 0, 0x21, 0xA0, 4, 0, 0, 0xD0, 0, 0, 0, 0]
  const OVERWRITTEN: seq<Byte> := [8, 0, 0x21, 0xA0, 4, 0, 0, 0xD0, 1, 0, 0x30, 0x83]

  function FlushingMachine(): Machine { Machine(REGS, FLUSHED, 0, 0, 0) }

  lemma FlushedWords()
    ensures Fetch(FLUSHED, 0) == Some(STORE_AHEAD) && Fetch(FLUSHED, 4) == Some(JUMP_INSN)
    ensures Fetch(FLUSHED, 8) == Some(STALE_INSN) && Fetch(OVERWRITTEN, 8) == Some(PATCH_INSN)
    ensures Fetch(OVERWRITTEN, 4) == Some(JUMP_INSN) && Fetch(OVERWRITTEN, 12) == None
  {
    assert Read32(FLUSHED, 0) == 0xA021_0008 && Decode(0xA021_0008) == STORE_AHEAD;
    assert Read32(FLUSHED, 4) == 0xD000_0004 && Decode(0xD000_0004) == JUMP_INSN;
    assert Read32(FLUSHED, 8) == 0 && Decode(0) == STALE_INSN;
    assert Read32(OVERWRITTEN, 4) == 0xD000_0004;
    assert Read32(OVERWRITTEN, 8) == PATCH && Decode(PATCH) == PATCH_INSN;
  }

  lemma FlushedBytes()
    ensures Write32(FLUSHED, 8, PATCH) == OVERWRITTEN
  {
  }

  lemma FlushedStore()
    ensures Execute(false, FlushingMachine(), STORE_AHEAD, 0) == Next(Machine(REGS, OVERWRITTEN, 1, 0, 0))
  {
    FlushedBytes();
    hide Read32, Write32, Alu, ExecuteArithmetic, ExecuteBranch;
  }

  lemma FlushedJump()
    ensures Execute(false, Machine(REGS, OVERWRITTEN, 1, 0, 0), JUMP_INSN, 4)
            == Outcome(Machine(REGS, OVERWRITTEN, 2, 1, 1), true, 12, false)
  {
    hide Read32, Write32, Alu, ExecuteArithmetic, ExecuteMemory;
  }

  /** The store condition is not necessary: here a fetched word is overwritten and then flushed. */
  lemma FlushedStoreIsFresh(model: Model)
    requires !model.Lite()
    ensures !SafeRun(false, Isa(FlushingMachine(), 0), model.ExecStage())
    ensures FreshRun(CourseOf(model, FlushingMachine(), 0))
  {
    hide Fetch, Execute;
    FlushedWords();
    FlushedStore();
    FlushedJump();
    var g := CourseOf(model, FlushingMachine(), 0);
    assert g.At(0) == Isa(FlushingMachine(), 0);
    assert g.At(1) == Isa(Machine(REGS, OVERWRITTEN, 1, 0, 0), 4);
    assert g.At(2) == Isa(Machine(REGS, OVERWRITTEN, 2, 1, 1), 12);
    assert (0 + 4 * 2) % WORD == 8;
    assert !SafeAt(false, IsaRun(false, g.start, 0), model.ExecStage());
    assert g.Since(1) == 0 && g.Seen(1, 1) == 0 && g.Seen(0, 0) == 0;
    hide Course.Since;
    forall n: nat ensures g.FreshAt(n) {
      if n >= 2 { OverIsFresh(g, 2, n); }
    }
  }

  lemma OverIsFresh(g: Course, h: nat, n: nat)
    requires Halted(g.At(h)) && h <= n
    ensures g.FreshAt(n)
  {
    hide Fetch, IsaRun;
    HaltedStays(g.lite, g.start, h, n - h);
    HaltedIsFresh(g, n);
  }
}
