/** The core emulator in place: register file, memory and stage table are updated cycle by cycle. */
module BradEmulator {
  import opened Bits
  import opened BradCore

  const MAX_DEPTH := 16

  class CoreState {
    const model: Model
    const regs: array<Word>
    const mem: array<Byte>
    const stages: array<Option<Fetched>>
    var pc: Word
    var running: bool
    var drain: bool
    var retired: nat
    var branches: nat
    var branchesTaken: nat
    var cycles: nat
    var hazards: nat

    ghost predicate Valid()
      reads this
    {
      && regs.Length == NUM_REGS && stages.Length == MAX_DEPTH
      && regs as object != mem as object && regs as object != stages as object && mem as object != stages as object
    }

    ghost function MachineView(): Machine
      reads this, regs, mem
    {
      Machine(regs[..], mem[..], retired, branches, branchesTaken)
    }

    ghost function View(): Core
      requires Valid()
      reads this, regs, mem, stages
    {
      Core(MachineView(), pc, running, drain, stages[..model.Depth()], cycles, hazards)
    }

    constructor (model: Model, memory: array<Byte>, entry: Word, sp: Word)
      ensures Valid() && mem == memory && this.model == model && fresh(regs) && fresh(stages)
      ensures View() == Fresh(model, Machine(seq(NUM_REGS, i => if i == 13 then sp else 0), memory[..], 0, 0, 0), entry)
    {
      this.model, mem, pc := model, memory, entry;
      regs := new Word[NUM_REGS](i => if i == 13 then sp else 0);
      stages := new Option<Fetched>[MAX_DEPTH](_ => None);
      running, drain := true, false;
      retired, branches, branchesTaken, cycles, hazards := 0, 0, 0, 0, 0;
      new;
      assert regs[..] == seq(NUM_REGS, i => if i == 13 then sp else 0);
      assert stages[..model.Depth()] == Empty(model.Depth());
    }

    method ReadReg(r: nat) returns (v: Word)
      requires Valid()
      ensures v == Reg(MachineView(), model.Lite(), r)
    {
      v := if r < NumRegs(model.Lite()) then regs[r] else 0;
    }

    method WriteReg(r: nat, v: Word)
      requires Valid()
      modifies regs
      ensures MachineView() == SetLiteReg(old(MachineView()), model.Lite(), r, v)
    {
      if r < NumRegs(model.Lite()) {
        regs[r] := v;
      }
    }

    method LoadWord(addr: Word) returns (v: Word)
      ensures v == Read32(mem[..], addr)
    {
      if addr + 4 > mem.Length {
        return 0;
      }
      v := mem[addr] as int + 0x100 * (mem[addr + 1] as int) + 0x1_0000 * (mem[addr + 2] as int)
           + 0x100_0000 * (mem[addr + 3] as int);
    }

    method StoreWord(addr: Word, v: Word)
      modifies mem
      ensures mem[..] == Write32(old(mem[..]), addr, v)
    {
      if addr + 4 <= mem.Length {
        mem[addr], mem[addr + 1] := v % 0x100, v / 0x100 % 0x100;
        mem[addr + 2], mem[addr + 3] := v / 0x1_0000 % 0x100, v / 0x100_0000;
      }
    }

    /** Execute one instruction; a taken branch redirects the fetch address, a bad address faults. */
    method ExecuteInsn(d: Insn, insnPc: Word) returns (fault: bool, taken: bool)
      requires Valid()
      modifies this`pc, this`retired, this`branches, this`branchesTaken, regs, mem
      ensures Valid()
      ensures var o := Execute(model.Lite(), old(MachineView()), d, insnPc);
              && MachineView() == o.m && taken == o.taken && fault == o.fault && !(fault && taken)
              && pc == if o.taken then o.target else old(pc)
    {
      hide BradCore.ExecuteBranch, BradCore.ExecuteMemory, BradCore.ExecuteArithmetic;
      var a := ReadReg(d.rs1);
      var b := ReadReg(d.rs2);
      retired := retired + 1;
      if IsBranch(d.op) && d.op != RET {
        branches := branches + 1;
      }
      fault, taken := false, false;
      BranchNeverFaults(MachineView(), d, insnPc, a);
      if IsBranch(d.op) {
        taken := ExecuteBranchInsn(d, insnPc, a);
      } else if d.op == LDW || d.op == STW {
        fault := ExecuteMemoryInsn(d, (a + d.imm) % WORD, b);
      } else {
        ExecuteArithmeticInsn(d, a, b);
      }
    }

    method ExecuteMemoryInsn(d: Insn, addr: Word, b: Word) returns (fault: bool)
      requires Valid() && (d.op == LDW || d.op == STW)
      modifies regs, mem
      ensures var o := ExecuteMemory(model.Lite(), old(MachineView()), d, addr, b);
              MachineView() == o.m && !o.taken && fault == o.fault
    {
      hide Read32, Write32;
      fault := (addr + 4) % WORD > mem.Length;
      if !fault {
        if d.op == STW {
          StoreWord(addr, b);
        } else {
          var v := LoadWord(addr);
          WriteReg(d.rd, v);
        }
      }
    }

    method ExecuteArithmeticInsn(d: Insn, a: Word, b: Word)
      requires Valid() && !IsBranch(d.op) && d.op != LDW && d.op != STW
      modifies regs
      ensures var o := ExecuteArithmetic(model.Lite(), old(MachineView()), d, a, b);
              MachineView() == o.m && !o.taken && !o.fault
    {
      hide Alu;
      if d.op == MUL && model.Lite() {
        if d.rd < NUM_REGS { regs[d.rd] := 0; }
      } else if d.op == ADDI {
        WriteReg(d.rd, (a + d.imm) % WORD);
      } else {
        WriteReg(d.rd, Alu(d.op, a, b));
      }
    }

    method ExecuteBranchInsn(d: Insn, insnPc: Word, a: Word) returns (taken: bool)
      requires Valid() && IsBranch(d.op)
      modifies this`pc, this`branchesTaken, regs
      ensures Valid()
      ensures var o := ExecuteBranch(old(MachineView()), d, insnPc, a);
              MachineView() == o.m && taken == o.taken && pc == if o.taken then o.target else old(pc)
    {
      taken := !((d.op == BZ && a != 0) || (d.op == BNZ && a == 0));
      if d.op == CALL {
        regs[REG_LR] := (insnPc + 4) % WORD;
      }
      if taken {
        pc := if d.op == RET then a else (insnPc + 4 + d.imm) % WORD;
        branchesTaken := branchesTaken + 1;
      }
    }

    method AdvancePipeline()
      requires Valid()
      modifies stages
      ensures stages[..model.Depth()] == Advance(old(stages[..model.Depth()]))
    {
      var s := model.Depth() - 1;
      while s > 0
        invariant 0 <= s < model.Depth()
        invariant forall i :: 0 <= i <= s ==> stages[i] == old(stages[i])
        invariant forall i :: s < i < model.Depth() ==> stages[i] == old(stages[i - 1])
      {
        stages[s] := stages[s - 1];
        s := s - 1;
      }
      stages[0] := None;
    }

    method PipelineFlush()
      requires Valid()
      modifies stages
      ensures stages[..model.Depth()] == Empty(model.Depth())
    {
      for s := 0 to model.Depth()
        invariant forall i :: 0 <= i < s ==> i == model.ExecStage() || stages[i] == None
      {
        if s != model.ExecStage() {
          stages[s] := None;
        }
      }
      stages[model.ExecStage()] := None;
    }

    method FetchInsn() returns (d: Option<Insn>)
      requires Valid()
      modifies this`pc
      ensures d == Fetch(mem[..], old(pc))
      ensures pc == if d.Some? then (old(pc) + 4) % WORD else old(pc)
    {
      if (pc + 4) % WORD > mem.Length {
        return None;
      }
      var raw := LoadWord(pc);
      pc := (pc + 4) % WORD;
      return Some(Decode(raw));
    }

    method FetchAndCount()
      requires Valid()
      modifies this`pc, this`drain, this`cycles, this`running, stages
      ensures Valid() && View() == FetchPhase(old(View()))
    {
      hide Fetch;
      ghost var before := View();
      if stages[0].None? && running && !drain {
        var at := pc;
        var d := FetchInsn();
        if d.Some? {
          stages[0] := Some(Fetched(d.value, at));
        } else {
          drain := true;
        }
      }
      ghost var fetched := stages[..model.Depth()];
      cycles := cycles + 1;
      if drain {
        var empty := true;
        for i := 0 to model.Depth()
          invariant stages[..model.Depth()] == fetched
          invariant empty <==> forall s :: 0 <= s < i ==> fetched[s].None?
        {
          assert stages[i] == fetched[i];
          if stages[i].Some? { empty := false; }
        }
        if empty { running := false; }
      }
      assert View().stages == FetchPhase(before).stages;
    }

    /**
      One cycle of any of the four models. Whether execution empties its stage is the one
      difference between their four functions.
     */
    method RunPipeline()
      requires Valid()
      modifies this, regs, mem, stages
      ensures Valid() && View() == Cycle(model, old(View()))
    {
      hide Execute, FetchPhase;
      ghost var before := View();
      AdvancePipeline();
      assert stages[..model.Depth()][model.ExecStage()] == stages[model.ExecStage()];
      var slot := stages[model.ExecStage()];
      if slot.Some? {
        var fault, taken := ExecuteInsn(slot.value.insn, slot.value.pc);
        if (model != Phoenix || !fault) && taken {
          hazards := hazards + 1;
          PipelineFlush();
          drain := false;
          return;
        }
        if model.ClearsExecStage() {
          stages[model.ExecStage()] := None;
          assert stages[..model.Depth()] == Advance(before.stages)[model.ExecStage() := None];
        }
      }
      FetchAndCount();
    }

    /** Run until the core stops or max cycles have been counted. */
    method RunCore(max: nat) returns (ghost steps: nat)
      requires Valid()
      modifies this, regs, mem, stages
      ensures Valid() && View() == Cycles(model, old(View()), steps)
      ensures !running || cycles - old(cycles) >= max
    {
      hide Cycle;
      var start := cycles;
      ghost var before := View();
      steps := 0;
      while running
        invariant Valid() && View() == Cycles(model, before, steps)
        invariant start <= cycles
        decreases if running then 1 + (if start + max > cycles then start + max - cycles else 0) else 0,
                  if View().stages[model.ExecStage() - 1].Some? then 1 else 0
      {
        CycleProgress(model, View());
        RunPipeline();
        steps := steps + 1;
        if cycles - start >= max {
          break;
        }
      }
    }
  }

  lemma BranchNeverFaults(m: Machine, d: Insn, pc: Word, a: Word)
    ensures !BradCore.ExecuteBranch(m, d, pc, a).fault
  {
  }

  /** A load or store that faults changes only the count of instructions. */
  lemma FaultKeeps(lite: bool, m: Machine, d: Insn, pc: Word)
    ensures var o := Execute(lite, m, d, pc);
            && (o.fault <==> (d.op == LDW || d.op == STW) && OutOfBounds(m.mem, AddressOf(lite, m, d)))
            && (o.fault ==> !o.taken && o.m == m.(retired := m.retired + 1))
  {
    hide Alu, Read32, Write32;
  }

  function AddressOf(lite: bool, m: Machine, d: Insn): Word { (Reg(m, lite, d.rs1) + d.imm) % WORD }

  /** The bounds test is right except for the last four addresses, when the wrapped end passes it. */
  lemma BoundsTestIff(mem: seq<Byte>, addr: Word)
    ensures (OutOfBounds(mem, addr) <==> addr + 4 > |mem|)
            <==> addr + 4 < WORD || addr + 4 - WORD > |mem| || addr + 4 <= |mem|
  {
  }

  /** A load or store faults when its word is not in memory, but for those addresses. */
  lemma FaultIff(lite: bool, m: Machine, d: Insn, pc: Word)
    ensures var memory, addr := d.op == LDW || d.op == STW, AddressOf(lite, m, d);
            (Execute(lite, m, d, pc).fault <==> memory && addr + 4 > |m.mem|)
            <==> !memory || addr + 4 < WORD || addr + 4 - WORD > |m.mem| || addr + 4 <= |m.mem|
  {
    FaultKeeps(lite, m, d, pc);
    BoundsTestIff(m.mem, AddressOf(lite, m, d));
  }

  /** A load from address -4 of a memory of 100 bytes does not fault, and a fetch from there succeeds. */
  lemma WrappedAddressPasses(m: Machine)
    requires |m.regs| == NUM_REGS && m.regs[0] == 0 && |m.mem| == 100
    ensures AddressOf(false, m, Insn(LDW, 1, 0, 0, -4)) == WORD - 4
    ensures !Execute(false, m, Insn(LDW, 1, 0, 0, -4), 0).fault
    ensures Execute(false, m, Insn(JMP, 0, 0, 0, -8), 0).target == WORD - 4 && Fetch(m.mem, WORD - 4).Some?
  {
    FaultKeeps(false, m, Insn(LDW, 1, 0, 0, -4), 0);
  }

  /** A cycle is counted unless it flushes, and a flush empties the stage before execution. */
  lemma CycleProgress(model: Model, c: Core)
    requires |c.stages| > model.ExecStage() && c.running
    ensures var d := Cycle(model, c);
            || d.cycles == c.cycles + 1
            || (d.cycles == c.cycles && c.stages[model.ExecStage() - 1].Some?
                && d.stages == Empty(|c.stages|))
  {
    hide Execute, Fetch;
  }
}
