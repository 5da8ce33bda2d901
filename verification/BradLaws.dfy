/** What each instruction of the core does, operation by operation. */
module BradLaws {
  import opened Bits
  import opened BitLaws
  import opened BradCore

  /** The operation codes of the instruction words. */
  lemma OpcodeNumbers()
    ensures [OpcodeOf(0), OpcodeOf(1), OpcodeOf(2), OpcodeOf(3), OpcodeOf(4), OpcodeOf(5), OpcodeOf(6), OpcodeOf(7)]
            == [ADD, SUB, MUL, AND, OR, XOR, SHL, SHR]
    ensures [OpcodeOf(8), OpcodeOf(9), OpcodeOf(10), OpcodeOf(11), OpcodeOf(12), OpcodeOf(13), OpcodeOf(14), OpcodeOf(15)]
            == [ADDI, LDW, STW, BZ, BNZ, JMP, CALL, RET]
  {
  }

  /** What an instruction finds in a register: the smallest core has eight, and reads 0 beyond. */
  function Held(m: Machine, lite: bool, r: nat): Word
    requires |m.regs| == 16
  {
    if r < (if lite then 8 else 16) then m.regs[r] else 0
  }

  /** Only the memory, register rd and the count of instructions may have changed. */
  ghost predicate OnlyRegister(m: Machine, n: Machine, rd: nat)
    requires |m.regs| == 16
  {
    && n.mem == m.mem && n.retired == m.retired + 1 && n.branches == m.branches && n.branchesTaken == m.branchesTaken
    && |n.regs| == 16 && forall r :: 0 <= r < 16 && r != rd ==> n.regs[r] == m.regs[r]
  }

  /**
    What v is for operands a and b: sum, difference and product modulo 2^32, and digit i of the
    logical operations and the shifts.
   */
  predicate Computed(op: Opcode, a: Word, b: Word, v: Word, i: nat) {
    match op
    case ADD => v == (a + b) % 0x1_0000_0000
    case SUB => v == (a - b) % 0x1_0000_0000
    case MUL => v == a * b % 0x1_0000_0000
    case AND => DigitAt(v, i) == 1 <==> DigitAt(a, i) == 1 && DigitAt(b, i) == 1
    case OR => DigitAt(v, i) == 1 <==> DigitAt(a, i) == 1 || DigitAt(b, i) == 1
    case XOR => DigitAt(v, i) == 1 <==> DigitAt(a, i) != DigitAt(b, i)
    case SHL => DigitAt(v, i) == if i < b % 32 then 0 else DigitAt(a, i - b % 32)
    case SHR => DigitAt(v, i) == if i + b % 32 < 32 then DigitAt(a, i + b % 32) else 0
    case _ => false
  }

  lemma AluComputes(op: Opcode, a: Word, b: Word, i: nat)
    requires op in {ADD, SUB, MUL, AND, OR, XOR, SHL, SHR} && i < 32
    ensures Computed(op, a, b, Alu(op, a, b), i)
  {
    hide Bits.And, Bits.Or, Bits.Xor, Shl, Shr, DigitAt;
    LogicAt(a, b, i);
    ShiftAt(a, b % 32, i);
  }

  /**
    Arithmetic, logic and shifts act on the two source registers. The smallest core multiplies
    to 0, and has no registers from 8 on.
   */
  lemma Arithmetic(lite: bool, m: Machine, d: Insn, pc: Word, i: nat)
    requires |m.regs| == 16 && d.rd < 16 && d.op in {ADD, SUB, MUL, AND, OR, XOR, SHL, SHR} && i < 32
    ensures var o := Execute(lite, m, d, pc);
            && !o.taken && !o.fault && OnlyRegister(m, o.m, d.rd)
            && if lite && d.op == MUL then o.m.regs[d.rd] == 0
               else if lite && d.rd >= 8 then o.m.regs[d.rd] == m.regs[d.rd]
               else Computed(d.op, Held(m, lite, d.rs1), Held(m, lite, d.rs2), o.m.regs[d.rd], i)
  {
    hide Alu, Computed;
    AluComputes(d.op, Held(m, lite, d.rs1), Held(m, lite, d.rs2), i);
  }

  /** ADDI adds the immediate. */
  lemma AddImmediate(lite: bool, m: Machine, d: Insn, pc: Word)
    requires |m.regs| == 16 && d.rd < 16 && d.op == ADDI
    ensures var o := Execute(lite, m, d, pc);
            && !o.taken && !o.fault && OnlyRegister(m, o.m, d.rd)
            && o.m.regs[d.rd] == if lite && d.rd >= 8 then m.regs[d.rd]
                                 else (Held(m, lite, d.rs1) + d.imm) % 0x1_0000_0000
  {
  }

  /** A load of a word that lies in memory. */
  lemma LoadWord(lite: bool, m: Machine, d: Insn, pc: Word, addr: nat)
    requires |m.regs| == 16 && d.rd < 16 && d.op == LDW
    requires addr == (Held(m, lite, d.rs1) + d.imm) % 0x1_0000_0000 && addr + 4 <= |m.mem| && addr + 4 < 0x1_0000_0000
    ensures var o := Execute(lite, m, d, pc);
            && !o.taken && !o.fault && OnlyRegister(m, o.m, d.rd)
            && o.m.regs[d.rd] == if lite && d.rd >= 8 then m.regs[d.rd] else FourBytes(m.mem, addr)
  {
    LittleEndian(m.mem, addr, 0);
    hide Read32, FourBytes;
  }

  /** A store to such a word: its four bytes are the register's, and nothing else changes. */
  lemma StoreWord(lite: bool, m: Machine, d: Insn, pc: Word, addr: nat)
    requires |m.regs| == 16 && d.op == STW
    requires addr == (Held(m, lite, d.rs1) + d.imm) % 0x1_0000_0000 && addr + 4 <= |m.mem| && addr + 4 < 0x1_0000_0000
    ensures var o := Execute(lite, m, d, pc);
            && !o.taken && !o.fault && o.m == m.(mem := o.m.mem, retired := m.retired + 1) && |o.m.mem| == |m.mem|
            && FourBytes(o.m.mem, addr) == Held(m, lite, d.rs2)
            && forall k :: 0 <= k < |m.mem| && !(addr <= k < addr + 4) ==> o.m.mem[k] == m.mem[k]
  {
    LittleEndian(m.mem, addr, Held(m, lite, d.rs2));
    hide Write32, FourBytes;
  }

  /**
    BZ branches when its register is 0 and BNZ when it is not, to pc + 4 + imm; JMP and CALL
    always, CALL leaving pc + 4 in register 14; RET to the address in its register. Returns are
    not counted as branches, but as taken ones.
   */
  lemma Branches(lite: bool, m: Machine, d: Insn, pc: Word)
    requires |m.regs| == 16 && d.op in {BZ, BNZ, JMP, CALL, RET}
    ensures var o, a := Execute(lite, m, d, pc), Held(m, lite, d.rs1);
            && !o.fault
            && (o.taken <==> (d.op == BZ ==> a == 0) && (d.op == BNZ ==> a != 0))
            && (o.taken ==> o.target == if d.op == RET then a else (pc + 4 + d.imm) % 0x1_0000_0000)
            && o.m.mem == m.mem && o.m.retired == m.retired + 1
            && o.m.branches == m.branches + (if d.op == RET then 0 else 1)
            && o.m.branchesTaken == m.branchesTaken + (if o.taken then 1 else 0)
            && o.m.regs == if d.op == CALL then m.regs[14 := (pc + 4) % 0x1_0000_0000] else m.regs
  {
  }

  /** A fetch decodes the word at pc, its lowest byte first, and finds nothing where the word is not in memory. */
  lemma FetchIs(mem: seq<Byte>, pc: Word)
    requires pc + 4 < 0x1_0000_0000
    ensures pc + 4 <= |mem| ==> FourBytes(mem, pc) < 0x1_0000_0000 && Fetch(mem, pc) == Some(Decode(FourBytes(mem, pc)))
    ensures pc + 4 > |mem| ==> Fetch(mem, pc) == None
  {
    if pc + 4 <= |mem| { LittleEndian(mem, pc, 0); }
    hide Decode;
  }

  /** The sequential machine goes on at the target of a taken branch, and four bytes on otherwise. */
  lemma SequentialStep(lite: bool, s: Isa, d: Insn)
    requires Fetch(s.m.mem, s.pc) == Some(d)
    ensures var o, t := Execute(lite, s.m, d, s.pc), IsaStep(lite, s);
            t.m == o.m && t.pc == if o.taken then o.target else (s.pc + 4) % 0x1_0000_0000
  {
    hide Execute, Fetch;
  }
}
