/**
  The BradISA V1 instruction set (uncompressed) and the pipelined core emulator: four core
  models that differ in depth, execute stage and in whether execution empties its stage.
 */
module BradCore {

  import opened Bits

  // ---------- Instructions ----------

  datatype Opcode =
    | ADD | SUB | MUL | AND | OR | XOR | SHL | SHR
    | ADDI | LDW | STW | BZ | BNZ | JMP | CALL | RET

  /** A decoded instruction: the immediate is the sign-extended low half of the word. */
  datatype Insn = Insn(op: Opcode, rd: nat, rs1: nat, rs2: nat, imm: int)

  function OpcodeOf(n: nat): Opcode
    requires n < 16
  {
    match n
    case 0 => ADD case 1 => SUB case 2 => MUL case 3 => AND
    case 4 => OR case 5 => XOR case 6 => SHL case 7 => SHR
    case 8 => ADDI case 9 => LDW case 10 => STW case 11 => BZ
    case 12 => BNZ case 13 => JMP case 14 => CALL case _ => RET
  }

  function SignExtend16(n: nat): int {
    if n < 0x8000 then n else n - 0x1_0000
  }

  function Decode(raw: Word): Insn {
    Insn(OpcodeOf(raw / 0x1000_0000), raw / 0x100_0000 % 16, raw / 0x10_0000 % 16, raw / 0x1_0000 % 16,
         SignExtend16(raw % 0x1_0000))
  }

  /** An instruction word put together from its fields decodes to them. */
  lemma DecodeFields(op: nat, rd: nat, rs1: nat, rs2: nat, imm: int)
    requires op < 16 && rd < 16 && rs1 < 16 && rs2 < 16 && -0x8000 <= imm < 0x8000
    ensures var raw := op * 0x1000_0000 + rd * 0x100_0000 + rs1 * 0x10_0000 + rs2 * 0x1_0000 + imm % 0x1_0000;
            raw < WORD && Decode(raw) == Insn(OpcodeOf(op), rd, rs1, rs2, imm)
  {
    hide Decode, SignExtend16;
    var low := imm % 0x1_0000;
    var raw := op * 0x1000_0000 + rd * 0x100_0000 + rs1 * 0x10_0000 + rs2 * 0x1_0000 + low;
    SignRestored(imm);
    DecodeOf(raw, low, op, op * 0x10 + rd, op * 0x100 + rd * 0x10 + rs1,
             op * 0x1000 + rd * 0x100 + rs1 * 0x10 + rs2, rd, rs1, rs2);
  }

  /** From the leading parts of a word to its decoded fields. */
  lemma DecodeOf(raw: Word, low: nat, op: nat, two: nat, three: nat, four: nat, rd: nat, rs1: nat, rs2: nat)
    requires op < 16 && rd < 16 && rs1 < 16 && rs2 < 16 && low < 0x1_0000
    requires two == op * 0x10 + rd && three == two * 0x10 + rs1 && four == three * 0x10 + rs2
    requires raw == four * 0x1_0000 + low
    ensures Decode(raw) == Insn(OpcodeOf(op), rd, rs1, rs2, SignExtend16(low))
  {
    hide OpcodeOf, SignExtend16;
    LowHalf(four, low);
    HighParts(op, rd, rs1, rs2, low);
    LowNibble(op, rd);
    LowNibble(two, rs1);
    LowNibble(three, rs2);
  }

  lemma LowHalf(four: nat, low: nat)
    requires low < 0x1_0000
    ensures (four * 0x1_0000 + low) % 0x1_0000 == low && (four * 0x1_0000 + low) / 0x1_0000 == four
  {
  }

  lemma LowNibble(high: nat, low: nat)
    requires low < 0x10
    ensures (high * 0x10 + low) % 0x10 == low
  {
  }

  lemma HighParts(op: nat, rd: nat, rs1: nat, rs2: nat, low: nat)
    requires op < 16 && rd < 16 && rs1 < 16 && rs2 < 16 && low < 0x1_0000
    ensures var raw := (((op * 0x10 + rd) * 0x10 + rs1) * 0x10 + rs2) * 0x1_0000 + low;
            && raw / 0x10_0000 == (op * 0x10 + rd) * 0x10 + rs1 && raw / 0x100_0000 == op * 0x10 + rd
            && raw / 0x1000_0000 == op
  {
  }

  lemma SignRestored(imm: int)
    requires -0x8000 <= imm < 0x8000
    ensures SignExtend16(imm % 0x1_0000) == imm
  {
  }

  // ---------- Memory ----------

  /** The bounds test of the source, in 32-bit arithmetic. */
  predicate OutOfBounds(mem: seq<Byte>, addr: Word) {
    (addr + 4) % WORD > |mem|
  }

  // ---------- The sequential instruction set ----------

  const NUM_REGS := 16
  const REG_LR := 14

  /** Everything that executing an instruction changes, except the program counter. */
  datatype Machine = Machine(regs: seq<Word>, mem: seq<Byte>, retired: nat, branches: nat, branchesTaken: nat)

  /** The result of one instruction: the new machine, and the target when a branch is taken. */
  datatype Outcome = Outcome(m: Machine, taken: bool, target: Word, fault: bool)

  /** `lite` is the Falcon-Lite core: eight registers, and multiplication yields 0. */
  function NumRegs(lite: bool): nat { if lite then 8 else NUM_REGS }

  function Reg(m: Machine, lite: bool, r: nat): Word {
    if r < NumRegs(lite) && r < |m.regs| then m.regs[r] else 0
  }

  function SetReg(m: Machine, r: nat, v: Word): (n: Machine)
    ensures |n.regs| == |m.regs| && n.mem == m.mem && n.retired == m.retired
  {
    if r < |m.regs| then m.(regs := m.regs[r := v]) else m
  }

  function SetLiteReg(m: Machine, lite: bool, r: nat, v: Word): Machine {
    if r < NumRegs(lite) then SetReg(m, r, v) else m
  }

  function Alu(op: Opcode, a: Word, b: Word): Word {
    match op
    case ADD => (a + b) % WORD
    case SUB => (a - b) % WORD
    case MUL => a * b % WORD
    case AND => Bits.And(a, b)
    case OR => Bits.Or(a, b)
    case XOR => Bits.Xor(a, b)
    case SHL => Shl(a, b % 32)
    case SHR => Shr(a, b % 32)
    case _ => 0
  }

  function Next(m: Machine): Outcome { Outcome(m, false, 0, false) }

  function Fault(m: Machine): Outcome { Outcome(m, false, 0, true) }

  function Branch(m: Machine, target: int): Outcome {
    Outcome(m.(branchesTaken := m.branchesTaken + 1), true, target % WORD, false)
  }

  predicate IsBranch(op: Opcode) { op in {BZ, BNZ, JMP, CALL, RET} }

  function ExecuteBranch(m: Machine, d: Insn, pc: Word, a: Word): Outcome {
    match d.op
    case BZ => if a == 0 then Branch(m, pc + 4 + d.imm) else Next(m)
    case BNZ => if a != 0 then Branch(m, pc + 4 + d.imm) else Next(m)
    case CALL => Branch(SetReg(m, REG_LR, (pc + 4) % WORD), pc + 4 + d.imm)
    case RET => Branch(m, a)
    case _ => Branch(m, pc + 4 + d.imm)
  }

  function ExecuteMemory(lite: bool, m: Machine, d: Insn, addr: Word, b: Word): Outcome {
    if OutOfBounds(m.mem, addr) then Fault(m)
    else if d.op == STW then Next(m.(mem := Write32(m.mem, addr, b)))
    else Next(SetLiteReg(m, lite, d.rd, Read32(m.mem, addr)))
  }

  function ExecuteArithmetic(lite: bool, m: Machine, d: Insn, a: Word, b: Word): Outcome {
    if d.op == MUL && lite then Next(SetReg(m, d.rd, 0))
    else Next(SetLiteReg(m, lite, d.rd, if d.op == ADDI then (a + d.imm) % WORD else Alu(d.op, a, b)))
  }

  function Execute(lite: bool, m0: Machine, d: Insn, pc: Word): Outcome {
    var m := m0.(retired := m0.retired + 1,
                 branches := m0.branches + if IsBranch(d.op) && d.op != RET then 1 else 0);
    var a, b := Reg(m, lite, d.rs1), Reg(m, lite, d.rs2);
    if IsBranch(d.op) then ExecuteBranch(m, d, pc, a)
    else if d.op == LDW || d.op == STW then ExecuteMemory(lite, m, d, (a + d.imm) % WORD, b)
    else ExecuteArithmetic(lite, m, d, a, b)
  }

  function Fetch(mem: seq<Byte>, pc: Word): Option<Insn> {
    if OutOfBounds(mem, pc) then None else Some(Decode(Read32(mem, pc)))
  }

  /** The reference: one instruction at a time. */
  datatype Isa = Isa(m: Machine, pc: Word)

  predicate Halted(s: Isa) { Fetch(s.m.mem, s.pc).None? }

  function IsaStep(lite: bool, s: Isa): Isa {
    match Fetch(s.m.mem, s.pc)
    case None => s
    case Some(d) =>
      var o := Execute(lite, s.m, d, s.pc);
      Isa(o.m, if o.taken then o.target else (s.pc + 4) % WORD)
  }

  function IsaRun(lite: bool, s: Isa, n: nat): Isa {
    if n == 0 then s else IsaStep(lite, IsaRun(lite, s, n - 1))
  }

  // ---------- The pipelined core ----------

  datatype Model = Phoenix | Falcon | Kestrel | FalconLite {
    function Depth(): nat {
      match this case Phoenix => 10 case Falcon => 5 case Kestrel => 8 case FalconLite => 3
    }

    function ExecStage(): nat {
      match this case Phoenix => 6 case Falcon => 3 case Kestrel => 4 case FalconLite => 1
    }

    /** The two Falcon pipelines empty the execute stage; the others let the instruction move on. */
    predicate ClearsExecStage() { Falcon? || FalconLite? }

    predicate Lite() { FalconLite? }
  }

  /** An instruction in a stage, with the address it was fetched from. */
  datatype Fetched = Fetched(insn: Insn, pc: Word)

  datatype Core = Core(m: Machine, pc: Word, running: bool, drain: bool, stages: seq<Option<Fetched>>,
                       cycles: nat, hazards: nat)

  predicate AllEmpty(stages: seq<Option<Fetched>>) {
    forall s :: 0 <= s < |stages| ==> stages[s].None?
  }

  function Empty(depth: nat): seq<Option<Fetched>> { seq(depth, _ => None) }

  function Advance(stages: seq<Option<Fetched>>): seq<Option<Fetched>>
    requires |stages| > 0
  {
    [None] + stages[..|stages| - 1]
  }

  /** The second half of a cycle: fetch into the first stage, count, and stop once drained. */
  function FetchPhase(c: Core): Core
    requires |c.stages| > 0
  {
    var fetching := c.stages[0].None? && c.running && !c.drain;
    var d := Fetch(c.m.mem, c.pc);
    var f := if !fetching then c
             else if d.None? then c.(drain := true)
             else c.(stages := c.stages[0 := Some(Fetched(d.value, c.pc))], pc := (c.pc + 4) % WORD);
    f.(cycles := c.cycles + 1, running := f.running && !(f.drain && AllEmpty(f.stages)))
  }

  /** One cycle: advance, execute what reached the execute stage, then flush or fetch. */
  function Cycle(model: Model, c: Core): Core
    requires |c.stages| > model.ExecStage()
  {
    var e := model.ExecStage();
    var stages := Advance(c.stages);
    match stages[e]
    case None => FetchPhase(c.(stages := stages))
    case Some(f) =>
      var o := Execute(model.Lite(), c.m, f.insn, f.pc);
      if o.taken then
        c.(m := o.m, pc := o.target, stages := Empty(|c.stages|), drain := false, hazards := c.hazards + 1)
      else
        FetchPhase(c.(m := o.m, stages := if model.ClearsExecStage() then stages[e := None] else stages))
  }

  function StepCore(model: Model, c: Core): Core
    requires |c.stages| > model.ExecStage()
  {
    if c.running then Cycle(model, c) else c
  }

  lemma StepCoreKeepsDepth(model: Model, c: Core)
    requires |c.stages| > model.ExecStage()
    ensures |StepCore(model, c).stages| == |c.stages|
  {
  }

  function Cycles(model: Model, c: Core, n: nat): (r: Core)
    requires |c.stages| > model.ExecStage()
    ensures |r.stages| == |c.stages|
  {
    if n == 0 then c
    else
      var p := Cycles(model, c, n - 1);
      StepCoreKeepsDepth(model, p);
      StepCore(model, p)
  }

  /** A core as initialised: empty stages, running at the entry point. */
  function Fresh(model: Model, m: Machine, entry: Word): Core {
    Core(m, entry, true, false, Empty(model.Depth()), 0, 0)
  }
}
