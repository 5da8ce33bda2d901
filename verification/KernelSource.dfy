/** The source text of the three linear-algebra kernels, and what the assembler makes of it. */
module KernelSource {
  import opened Bits
  import opened BradVector
  import opened Bvbc
  import opened Bradc
  import opened BradcSteps
  import Kernels
  import KernelGemm
  import KernelDot
  import KernelSaxpy
  import Bvml

  // ---------- Writing lines ----------

  function Digit(n: nat): char
    requires n < 10
  {
    '0' + n as char
  }

  function Dec(n: nat): (s: string)
    ensures s != []
  {
    if n < 10 then [Digit(n)] else Dec(n / 10) + [Digit(n % 10)]
  }

  function Reg(n: nat): Tok { Id("S" + Dec(n)) }

  function Pred(n: nat): Tok { Id("P" + Dec(n)) }

  function Line2(mn: string, d: nat, a: nat): Line { [Id(mn), Reg(d), Comma, Reg(a)] }

  function Line3(mn: string, d: nat, a: nat, b: nat): Line { [Id(mn), Reg(d), Comma, Reg(a), Comma, Reg(b)] }

  function Imm3(mn: string, d: nat, a: nat, v: int): Line { [Id(mn), Reg(d), Comma, Reg(a), Comma, Num(v)] }

  function CmpLine(p: nat, a: nat, b: nat): Line { [Id("CMP"), Pred(p), Comma, Reg(a), Comma, Reg(b)] }

  function BrIf(p: nat, target: string): Line { [Id("BR_COND"), At, Pred(p), Id(target)] }

  function LabelLine(name: string): Line { [Id(name), Colon] }

  // ---------- Reading them back ----------

  lemma {:induction false} DigitsOfDec(n: nat)
    ensures DigitsValue(Dec(n)) == Some(n)
    ensures '0' <= Dec(n)[0] <= '9'
  {
    if n >= 10 {
      DigitsOfDec(n / 10);
      assert Dec(n)[..|Dec(n)| - 1] == Dec(n / 10);
    } else {
      assert [Digit(n)][..0] == [];
    }
  }

  lemma RegParses(n: nat)
    requires n < 256
    ensures ParseReg(Reg(n).text) == Some(Operand(S, n))
  {
    DigitsOfDec(n);
    assert ("S" + Dec(n))[1..] == Dec(n);
  }

  lemma PredParses(n: nat)
    requires n < 16
    ensures ParseReg(Pred(n).text) == Some(Operand(P, n)) && Pred(n).text[0] == 'P'
    ensures Decimal(Pred(n).text[1..]) == Some(n)
  {
    DigitsOfDec(n);
    assert ("P" + Dec(n))[1..] == Dec(n);
  }

  /** How the parts of an instruction line with a third operand are found. */
  lemma ThreeParts(line: Line, mn: string, d: nat, a: nat, third: Tok)
    requires line == [Id(mn), Reg(d), Comma, Reg(a), Comma, third] && third != Comma && d < 256 && a < 256
    ensures KindOf(line) == Instruction && Mnemonic(line) == mn && ParsePred(line) == Some((0, 1))
    ensures NextSrc(line, 1) == 3 && NextSrc(line, 3) == 5 && |line| == 6 && line[5] == third
    ensures ParseOperand(line, 1) == Some(Operand(S, d)) && ParseOperand(line, 3) == Some(Operand(S, a))
  {
    hide ParseReg, Dec;
    RegParses(d);
    RegParses(a);
  }

  /** Ordinary operations go to the general operand parser. */
  lemma OrdinaryParse(syms: seq<Sym>, kpc: nat, line: Line, mn: string, op: Op)
    requires ParsePred(line) == Some((0, 1)) && Mnemonic(line) == mn && OpNamed(mn) == Some(op)
    requires op in {ADD, MUL, MAD, IADD, ISUB, IMUL, ADDi, LOAD, STORE, CMP}
    ensures ParseInsn(syms, kpc, line) == ParseOperands(line, 1, mn, op, 0)
  {
    hide ParsePred, Mnemonic, OpNamed, ParseOperands;
  }

  /** Two registers and a zero offset or immediate. */
  lemma ZeroOperands(line: Line, mn: string, op: Op, d: nat, a: nat)
    requires op in {LOAD, STORE, ADDi} && mn != "MOV" && d < 256 && a < 256
    requires NextSrc(line, 1) == 3 && NextSrc(line, 3) == 5 && NumberAt(line, 5) && line[5].v == 0
    requires ParseOperand(line, 1) == Some(Operand(S, d)) && ParseOperand(line, 3) == Some(Operand(S, a))
    ensures ParseOperands(line, 1, mn, op, 0) == Some(match op case LOAD => Kernels.Load(d, a)
                                                               case STORE => Kernels.StoreTo(d, a)
                                                               case _ => Kernels.Mov(d, a))
  {
    hide NextSrc, NumberAt, ParseOperand, SingleSource;
  }

  /** The operands of an arithmetic operation; the class of the first source is not looked at. */
  lemma AluOperands(line: Line, mn: string, op: Op, d: nat, a: Operand, b: nat)
    requires op in {ADD, MUL, MAD, IADD, ISUB, IMUL} && mn != "MOV" && d < 256 && b < 256
    requires NextSrc(line, 1) == 3 && NextSrc(line, 3) == 5 && !NumberAt(line, 5)
    requires ParseOperand(line, 1) == Some(Operand(S, d)) && ParseOperand(line, 3) == Some(a)
    requires ParseOperand(line, 5) == Some(Operand(S, b))
    ensures ParseOperands(line, 1, mn, op, 0) == Some(Kernels.Reg3(op, d, Cast8(a.num), b))
  {
    hide NextSrc, NumberAt, ParseOperand, OpCode, SingleSource;
    Arithmetic(op);
  }

  lemma Reg3Parses(syms: seq<Sym>, kpc: nat, mn: string, op: Op, d: nat, a: nat, b: nat)
    requires d < 256 && a < 256 && b < 256 && OpNamed(mn) == Some(op) && op in {ADD, MUL, MAD, IADD, ISUB, IMUL}
    ensures KindOf(Line3(mn, d, a, b)) == Instruction
    ensures ParseInsn(syms, kpc, Line3(mn, d, a, b)) == Some(Kernels.Reg3(op, d, a, b))
  {
    hide OpNamed, ParseReg, Dec, ParseInsn, ParseOperands;
    MovIsAddi();
    RegParses(b);
    ThreeParts(Line3(mn, d, a, b), mn, d, a, Reg(b));
    assert ParseOperand(Line3(mn, d, a, b), 5) == Some(Operand(S, b));
    OrdinaryParse(syms, kpc, Line3(mn, d, a, b), mn, op);
    AluOperands(Line3(mn, d, a, b), mn, op, d, Operand(S, a), b);
  }

  // ---------- One line of a listing ----------

  /** Line n of a listing is an instruction line for this instruction. */
  ghost predicate Row(k: Listing, n: nat, line: Line, insn: Insn) {
    && n < |k.body| && |k.at| == |k.body| + 1 && k.body[n] == line
    && k.at[n] < |k.prog| && k.prog[k.at[n]] == insn && k.at[n + 1] == k.at[n] + 1
  }

  lemma RowShape(k: Listing, n: nat, line: Line, insn: Insn)
    requires Row(k, n, line, insn)
    ensures n < |k.at|
  {
  }

  lemma NextRow(syms: seq<Sym>, k: Listing, n: nat, line: Line, insn: Insn)
    requires SpellsTo(syms, k, n) && Row(k, n, line, insn) && KindOf(line) == Instruction
    requires ParseInsn(syms, k.at[n], line) == Some(insn)
    ensures SpellsTo(syms, k, n + 1)
  {
    hide ParseInsn, KindOf;
  }

  lemma NextLabel(syms: seq<Sym>, k: Listing, n: nat, name: string)
    requires SpellsTo(syms, k, n) && n < |k.body| && k.body[n] == LabelLine(name) && k.at[n + 1] == k.at[n]
    ensures SpellsTo(syms, k, n + 1)
  {
    hide ParseInsn;
  }

  lemma NextMov(syms: seq<Sym>, k: Listing, n: nat, d: nat, a: nat)
    requires SpellsTo(syms, k, n) && d < 256 && a < 256 && Row(k, n, Line2("MOV", d, a), Kernels.Mov(d, a))
    ensures SpellsTo(syms, k, n + 1)
  {
    hide SpellsTo, ParseReg, Decimal, Dec;
    RegParses(d);
    RegParses(a);
    assert OpNamed("MOV") == Some(ADDi);
    hide OpNamed;
    NextRow(syms, k, n, Line2("MOV", d, a), Kernels.Mov(d, a));
  }

  lemma NextClear(syms: seq<Sym>, k: Listing, n: nat, d: nat, a: nat)
    requires SpellsTo(syms, k, n) && d < 256 && a < 256
    requires Row(k, n, Imm3("ADDi", d, a, 0), Kernels.Mov(d, a))
    ensures SpellsTo(syms, k, n + 1)
  {
    hide SpellsTo, Row, ParseInsn, ParseOperands;
    var line := Imm3("ADDi", d, a, 0);
    assert OpNamed("ADDi") == Some(ADDi);
    hide OpNamed;
    RowShape(k, n, line, Kernels.Mov(d, a));
    ThreeParts(line, "ADDi", d, a, Num(0));
    OrdinaryParse(syms, k.at[n], line, "ADDi", ADDi);
    ZeroOperands(line, "ADDi", ADDi, d, a);
    NextRow(syms, k, n, line, Kernels.Mov(d, a));
  }

  lemma NextReg3(syms: seq<Sym>, k: Listing, n: nat, mn: string, op: Op, d: nat, a: nat, b: nat)
    requires SpellsTo(syms, k, n) && Row(k, n, Line3(mn, d, a, b), Kernels.Reg3(op, d, a, b))
    requires d < 256 && a < 256 && b < 256 && OpNamed(mn) == Some(op) && op in {ADD, MUL, MAD, IADD, ISUB, IMUL}
    ensures SpellsTo(syms, k, n + 1)
  {
    hide SpellsTo, OpNamed, ParseInsn, Row;
    RowShape(k, n, Line3(mn, d, a, b), Kernels.Reg3(op, d, a, b));
    Reg3Parses(syms, k.at[n], mn, op, d, a, b);
    NextRow(syms, k, n, Line3(mn, d, a, b), Kernels.Reg3(op, d, a, b));
  }

  lemma MovIsAddi()
    ensures OpNamed("MOV") == Some(ADDi)
  {
  }

  lemma Arithmetic(op: Op)
    requires op in {ADD, MUL, MAD, IADD, ISUB, IMUL}
    ensures OpCode(op) < 0x20 && !SingleSource(op)
    ensures op !in {RET, EXIT, BAR, TRAP, BR, BR_COND, CALL, LANE_ID, WARP_SZ, CLOCK, CMP, ADDi}
  {
  }

  lemma NextCmp(syms: seq<Sym>, k: Listing, n: nat, p: nat, a: nat, b: nat)
    requires SpellsTo(syms, k, n) && Row(k, n, CmpLine(p, a, b), Kernels.Cmp(p, a, b))
    requires p < 16 && a < 256 && b < 256
    ensures SpellsTo(syms, k, n + 1)
  {
    hide SpellsTo, ParseReg, Decimal, Dec;
    PredParses(p);
    RegParses(a);
    RegParses(b);
    assert OpNamed("CMP") == Some(CMP);
    hide OpNamed;
    NextRow(syms, k, n, CmpLine(p, a, b), Kernels.Cmp(p, a, b));
  }

  lemma NextLoad(syms: seq<Sym>, k: Listing, n: nat, d: nat, base: nat)
    requires SpellsTo(syms, k, n) && d < 256 && base < 256
    requires Row(k, n, Imm3("LOAD", d, base, 0), Kernels.Load(d, base))
    ensures SpellsTo(syms, k, n + 1)
  {
    hide SpellsTo, Row, ParseInsn, ParseOperands;
    var line := Imm3("LOAD", d, base, 0);
    assert OpNamed("LOAD") == Some(LOAD);
    hide OpNamed;
    RowShape(k, n, line, Kernels.Load(d, base));
    ThreeParts(line, "LOAD", d, base, Num(0));
    OrdinaryParse(syms, k.at[n], line, "LOAD", LOAD);
    ZeroOperands(line, "LOAD", LOAD, d, base);
    NextRow(syms, k, n, line, Kernels.Load(d, base));
  }

  lemma NextStore(syms: seq<Sym>, k: Listing, n: nat, base: nat, v: nat)
    requires SpellsTo(syms, k, n) && base < 256 && v < 256
    requires Row(k, n, Imm3("STORE", base, v, 0), Kernels.StoreTo(base, v))
    ensures SpellsTo(syms, k, n + 1)
  {
    hide SpellsTo, Row, ParseInsn, ParseOperands;
    var line := Imm3("STORE", base, v, 0);
    assert OpNamed("STORE") == Some(STORE);
    hide OpNamed;
    RowShape(k, n, line, Kernels.StoreTo(base, v));
    ThreeParts(line, "STORE", base, v, Num(0));
    OrdinaryParse(syms, k.at[n], line, "STORE", STORE);
    ZeroOperands(line, "STORE", STORE, base, v);
    NextRow(syms, k, n, line, Kernels.StoreTo(base, v));
  }

  lemma BranchParses(syms: seq<Sym>, kpc: nat, target: string, imm: int)
    requires -128 <= imm < 128 && Find(syms, target) == Some(kpc + 1 + imm)
    ensures KindOf([Id("BR"), Id(target)]) == Instruction
    ensures ParseInsn(syms, kpc, [Id("BR"), Id(target)]) == Some(Kernels.Branch(imm))
  {
    hide Find, ParseOperands, ParseOperand;
    assert OpNamed("BR") == Some(BR);
    hide OpNamed;
    assert ParsePred([Id("BR"), Id(target)]) == Some((0, 1));
  }

  lemma NextBranch(syms: seq<Sym>, k: Listing, n: nat, target: string, imm: int)
    requires SpellsTo(syms, k, n) && Row(k, n, [Id("BR"), Id(target)], Kernels.Branch(imm)) && -128 <= imm < 128
    requires Find(syms, target).Some? && Find(syms, target).value == k.at[n] + 1 + imm
    ensures SpellsTo(syms, k, n + 1)
  {
    hide SpellsTo, Find, ParseInsn, Row, KindOf;
    RowShape(k, n, [Id("BR"), Id(target)], Kernels.Branch(imm));
    BranchParses(syms, k.at[n], target, imm);
    NextRow(syms, k, n, [Id("BR"), Id(target)], Kernels.Branch(imm));
  }

  lemma BranchIfParses(syms: seq<Sym>, kpc: nat, p: nat, target: string, imm: int)
    requires p < 16 && -128 <= imm < 128 && Find(syms, target) == Some(kpc + 1 + imm)
    ensures KindOf(BrIf(p, target)) == Instruction
    ensures ParseInsn(syms, kpc, BrIf(p, target)) == Some(Kernels.BranchIf(p, imm))
  {
    hide Find, ParseOperands, ParseOperand, ParseReg, Decimal, Dec;
    PredParses(p);
    assert OpNamed("BR_COND") == Some(BR_COND);
    hide OpNamed;
    assert ParsePred(BrIf(p, target)) == Some((p + 1, 3));
  }

  lemma NextBranchIf(syms: seq<Sym>, k: Listing, n: nat, p: nat, target: string, imm: int)
    requires SpellsTo(syms, k, n) && Row(k, n, BrIf(p, target), Kernels.BranchIf(p, imm)) && -128 <= imm < 128
    requires p < 16 && Find(syms, target).Some? && Find(syms, target).value == k.at[n] + 1 + imm
    ensures SpellsTo(syms, k, n + 1)
  {
    hide SpellsTo, Find, ParseInsn, Row, KindOf, BrIf;
    RowShape(k, n, BrIf(p, target), Kernels.BranchIf(p, imm));
    BranchIfParses(syms, k.at[n], p, target, imm);
    NextRow(syms, k, n, BrIf(p, target), Kernels.BranchIf(p, imm));
  }

  lemma NextExit(syms: seq<Sym>, k: Listing, n: nat)
    requires SpellsTo(syms, k, n) && Row(k, n, [Id("EXIT")], Kernels.Exit())
    ensures SpellsTo(syms, k, n + 1)
  {
    hide SpellsTo;
    assert OpNamed("EXIT") == Some(EXIT);
    hide OpNamed;
    NextRow(syms, k, n, [Id("EXIT")], Kernels.Exit());
  }

  lemma Names()
    ensures OpNamed("MAD") == Some(MAD) && OpNamed("MUL") == Some(MUL) && OpNamed("ADD") == Some(ADD)
    ensures OpNamed("IADD") == Some(IADD) && OpNamed("ISUB") == Some(ISUB)
  {
  }

  // ---------- The kernels ----------

  const GEMM_TEXT := Listing([
    Line2("MOV", 1, 0), Line2("MOV", 2, 16), Line2("MOV", 3, 17), Line2("MOV", 4, 19),
    LabelLine("gloop"),
    CmpLine(0, 4, 0), BrIf(0, "gdone"),
    Imm3("LOAD", 5, 2, 0), Imm3("LOAD", 6, 3, 0), Line3("MAD", 1, 5, 6),
    Line3("IADD", 2, 2, 20), Line3("IADD", 3, 3, 21), Line3("ISUB", 4, 4, 22), [Id("BR"), Id("gloop")],
    LabelLine("gdone"),
    Line3("MUL", 1, 1, 23), Imm3("LOAD", 7, 18, 0), Line3("MUL", 10, 24, 7), Line3("ADD", 1, 1, 10),
    Imm3("STORE", 18, 1, 0), [Id("EXIT")]],
    [0, 1, 2, 3, 4, 4, 5, 6, 7, 8, 9, 10, 11, 12, 13, 13, 14, 15, 16, 17, 18, 19], KernelGemm.GEMM)

  lemma GemmSpells(syms: seq<Sym>)
    requires Find(syms, "gloop") == Some(4) && Find(syms, "gdone") == Some(13)
    ensures Spells(syms, GEMM_TEXT)
  {
    hide Find, Dec, OpNamed, SpellsAt;
    assert SpellsTo(syms, GEMM_TEXT, 0);
    hide SpellsTo;
    GemmStart(syms);
    GemmProduct(syms);
    GemmAdvance(syms);
    GemmEnd(syms);
  }

  lemma GemmStart(syms: seq<Sym>)
    requires SpellsTo(syms, GEMM_TEXT, 0) && Find(syms, "gdone") == Some(13)
    ensures SpellsTo(syms, GEMM_TEXT, 7)
  {
    hide Find, Dec, OpNamed, SpellsTo, Line2, Line3, Imm3, CmpLine, BrIf, LabelLine;
    hide Kernels.Mov, Kernels.Reg3, Kernels.Cmp, Kernels.BranchIf, Kernels.Branch, Kernels.Load, Kernels.StoreTo;
    hide Kernels.Exit;
    NextMov(syms, GEMM_TEXT, 0, 1, 0);
    NextMov(syms, GEMM_TEXT, 1, 2, 16);
    NextMov(syms, GEMM_TEXT, 2, 3, 17);
    NextMov(syms, GEMM_TEXT, 3, 4, 19);
    NextLabel(syms, GEMM_TEXT, 4, "gloop");
    NextCmp(syms, GEMM_TEXT, 5, 0, 4, 0);
    NextBranchIf(syms, GEMM_TEXT, 6, 0, "gdone", 7);
  }

  lemma GemmProduct(syms: seq<Sym>)
    requires SpellsTo(syms, GEMM_TEXT, 7)
    ensures SpellsTo(syms, GEMM_TEXT, 10)
  {
    hide Find, Dec, OpNamed, SpellsTo, Line2, Line3, Imm3, CmpLine, BrIf, LabelLine;
    hide Kernels.Mov, Kernels.Reg3, Kernels.Cmp, Kernels.BranchIf, Kernels.Branch, Kernels.Load, Kernels.StoreTo;
    hide Kernels.Exit;
    Names();
    NextLoad(syms, GEMM_TEXT, 7, 5, 2);
    NextLoad(syms, GEMM_TEXT, 8, 6, 3);
    NextReg3(syms, GEMM_TEXT, 9, "MAD", MAD, 1, 5, 6);
  }

  lemma GemmAdvance(syms: seq<Sym>)
    requires SpellsTo(syms, GEMM_TEXT, 10) && Find(syms, "gloop") == Some(4)
    ensures SpellsTo(syms, GEMM_TEXT, 15)
  {
    hide Find, Dec, OpNamed, SpellsTo, Line2, Line3, Imm3, CmpLine, BrIf, LabelLine;
    hide Kernels.Mov, Kernels.Reg3, Kernels.Cmp, Kernels.BranchIf, Kernels.Branch, Kernels.Load, Kernels.StoreTo;
    hide Kernels.Exit;
    Names();
    NextReg3(syms, GEMM_TEXT, 10, "IADD", IADD, 2, 2, 20);
    NextReg3(syms, GEMM_TEXT, 11, "IADD", IADD, 3, 3, 21);
    NextReg3(syms, GEMM_TEXT, 12, "ISUB", ISUB, 4, 4, 22);
    NextBranch(syms, GEMM_TEXT, 13, "gloop", -9);
    NextLabel(syms, GEMM_TEXT, 14, "gdone");
  }

  lemma GemmEnd(syms: seq<Sym>)
    requires SpellsTo(syms, GEMM_TEXT, 15)
    ensures SpellsTo(syms, GEMM_TEXT, 21)
  {
    hide Find, Dec, OpNamed, SpellsTo, Line2, Line3, Imm3, CmpLine, BrIf, LabelLine;
    hide Kernels.Mov, Kernels.Reg3, Kernels.Cmp, Kernels.BranchIf, Kernels.Branch, Kernels.Load, Kernels.StoreTo;
    hide Kernels.Exit;
    Names();
    NextReg3(syms, GEMM_TEXT, 15, "MUL", MUL, 1, 1, 23);
    NextLoad(syms, GEMM_TEXT, 16, 7, 18);
    NextReg3(syms, GEMM_TEXT, 17, "MUL", MUL, 10, 24, 7);
    NextReg3(syms, GEMM_TEXT, 18, "ADD", ADD, 1, 1, 10);
    NextStore(syms, GEMM_TEXT, 19, 18, 1);
    NextExit(syms, GEMM_TEXT, 20);
  }

  const DOT_TEXT := Listing([
    Line2("MOV", 23, 16), Line2("MOV", 24, 17), Line2("MOV", 25, 19), Imm3("ADDi", 26, 0, 0),
    LabelLine("dloop"),
    Imm3("LOAD", 1, 23, 0), Imm3("LOAD", 2, 24, 0), Line3("MAD", 26, 1, 2),
    Line3("IADD", 23, 23, 20), Line3("IADD", 24, 24, 20), Line3("ISUB", 25, 25, 21),
    CmpLine(0, 25, 0), BrIf(0, "ddone"), [Id("BR"), Id("dloop")],
    LabelLine("ddone"),
    Imm3("STORE", 18, 26, 0), [Id("EXIT")]],
    [0, 1, 2, 3, 4, 4, 5, 6, 7, 8, 9, 10, 11, 12, 13, 13, 14, 15], KernelDot.DOT)

  lemma DotSpells(syms: seq<Sym>)
    requires Find(syms, "dloop") == Some(4) && Find(syms, "ddone") == Some(13)
    ensures Spells(syms, DOT_TEXT)
  {
    hide Find, Dec, OpNamed, SpellsAt;
    assert SpellsTo(syms, DOT_TEXT, 0);
    hide SpellsTo;
    DotStart(syms);
    DotAdvance(syms);
    DotEnd(syms);
  }

  lemma DotStart(syms: seq<Sym>)
    requires SpellsTo(syms, DOT_TEXT, 0)
    ensures SpellsTo(syms, DOT_TEXT, 8)
  {
    hide Find, Dec, OpNamed, SpellsTo, Line2, Line3, Imm3, CmpLine, BrIf, LabelLine;
    hide Kernels.Mov, Kernels.Reg3, Kernels.Cmp, Kernels.BranchIf, Kernels.Branch, Kernels.Load, Kernels.StoreTo;
    hide Kernels.Exit;
    Names();
    NextMov(syms, DOT_TEXT, 0, 23, 16);
    NextMov(syms, DOT_TEXT, 1, 24, 17);
    NextMov(syms, DOT_TEXT, 2, 25, 19);
    NextClear(syms, DOT_TEXT, 3, 26, 0);
    NextLabel(syms, DOT_TEXT, 4, "dloop");
    NextLoad(syms, DOT_TEXT, 5, 1, 23);
    NextLoad(syms, DOT_TEXT, 6, 2, 24);
    NextReg3(syms, DOT_TEXT, 7, "MAD", MAD, 26, 1, 2);
  }

  lemma DotAdvance(syms: seq<Sym>)
    requires SpellsTo(syms, DOT_TEXT, 8)
    ensures SpellsTo(syms, DOT_TEXT, 11)
  {
    hide Find, Dec, OpNamed, SpellsTo, Line2, Line3, Imm3, CmpLine, BrIf, LabelLine;
    hide Kernels.Mov, Kernels.Reg3, Kernels.Cmp, Kernels.BranchIf, Kernels.Branch, Kernels.Load, Kernels.StoreTo;
    hide Kernels.Exit;
    Names();
    NextReg3(syms, DOT_TEXT, 8, "IADD", IADD, 23, 23, 20);
    NextReg3(syms, DOT_TEXT, 9, "IADD", IADD, 24, 24, 20);
    NextReg3(syms, DOT_TEXT, 10, "ISUB", ISUB, 25, 25, 21);
  }

  lemma DotEnd(syms: seq<Sym>)
    requires SpellsTo(syms, DOT_TEXT, 11) && Find(syms, "dloop") == Some(4) && Find(syms, "ddone") == Some(13)
    ensures SpellsTo(syms, DOT_TEXT, 17)
  {
    hide Find, Dec, OpNamed, SpellsTo, Line2, Line3, Imm3, CmpLine, BrIf, LabelLine;
    hide Kernels.Mov, Kernels.Reg3, Kernels.Cmp, Kernels.BranchIf, Kernels.Branch, Kernels.Load, Kernels.StoreTo;
    hide Kernels.Exit;
    Names();
    NextCmp(syms, DOT_TEXT, 11, 0, 25, 0);
    NextBranchIf(syms, DOT_TEXT, 12, 0, "ddone", 1);
    NextBranch(syms, DOT_TEXT, 13, "dloop", -9);
    NextLabel(syms, DOT_TEXT, 14, "ddone");
    NextStore(syms, DOT_TEXT, 15, 18, 26);
    NextExit(syms, DOT_TEXT, 16);
  }

  const SAXPY_TEXT := Listing([
    Line2("MOV", 23, 16), Line2("MOV", 24, 17), Line2("MOV", 25, 18), Line2("MOV", 26, 20),
    LabelLine("loop"),
    Imm3("LOAD", 1, 23, 0), Imm3("LOAD", 2, 24, 0), Line3("MUL", 3, 19, 1), Line3("ADD", 3, 3, 2),
    Imm3("STORE", 25, 3, 0),
    Line3("IADD", 23, 23, 21), Line3("IADD", 24, 24, 21), Line3("IADD", 25, 25, 21), Line3("ISUB", 26, 26, 22),
    CmpLine(0, 26, 0), BrIf(0, "done"), [Id("BR"), Id("loop")],
    LabelLine("done"),
    [Id("EXIT")]],
    [0, 1, 2, 3, 4, 4, 5, 6, 7, 8, 9, 10, 11, 12, 13, 14, 15, 16, 16, 17], KernelSaxpy.SAXPY)

  lemma SaxpySpells(syms: seq<Sym>)
    requires Find(syms, "loop") == Some(4) && Find(syms, "done") == Some(16)
    ensures Spells(syms, SAXPY_TEXT)
  {
    hide Find, Dec, OpNamed, SpellsAt;
    assert SpellsTo(syms, SAXPY_TEXT, 0);
    hide SpellsTo;
    SaxpyStart(syms);
    SaxpyFetch(syms);
    SaxpyCombine(syms);
    SaxpyAdvance(syms);
    SaxpyEnd(syms);
  }

  lemma SaxpyStart(syms: seq<Sym>)
    requires SpellsTo(syms, SAXPY_TEXT, 0)
    ensures SpellsTo(syms, SAXPY_TEXT, 5)
  {
    hide Find, Dec, OpNamed, SpellsTo, Line2, Line3, Imm3, CmpLine, BrIf, LabelLine;
    hide Kernels.Mov, Kernels.Reg3, Kernels.Cmp, Kernels.BranchIf, Kernels.Branch, Kernels.Load, Kernels.StoreTo;
    hide Kernels.Exit;
    Names();
    NextMov(syms, SAXPY_TEXT, 0, 23, 16);
    NextMov(syms, SAXPY_TEXT, 1, 24, 17);
    NextMov(syms, SAXPY_TEXT, 2, 25, 18);
    NextMov(syms, SAXPY_TEXT, 3, 26, 20);
    NextLabel(syms, SAXPY_TEXT, 4, "loop");
  }

  lemma SaxpyFetch(syms: seq<Sym>)
    requires SpellsTo(syms, SAXPY_TEXT, 5)
    ensures SpellsTo(syms, SAXPY_TEXT, 7)
  {
    hide Find, Dec, OpNamed, SpellsTo, Line2, Line3, Imm3, CmpLine, BrIf, LabelLine;
    hide Kernels.Mov, Kernels.Reg3, Kernels.Cmp, Kernels.BranchIf, Kernels.Branch, Kernels.Load, Kernels.StoreTo;
    hide Kernels.Exit;
    NextLoad(syms, SAXPY_TEXT, 5, 1, 23);
    NextLoad(syms, SAXPY_TEXT, 6, 2, 24);
  }

  lemma SaxpyCombine(syms: seq<Sym>)
    requires SpellsTo(syms, SAXPY_TEXT, 7)
    ensures SpellsTo(syms, SAXPY_TEXT, 10)
  {
    hide Find, Dec, OpNamed, SpellsTo, Line2, Line3, Imm3, CmpLine, BrIf, LabelLine;
    hide Kernels.Mov, Kernels.Reg3, Kernels.Cmp, Kernels.BranchIf, Kernels.Branch, Kernels.Load, Kernels.StoreTo;
    hide Kernels.Exit;
    Names();
    NextReg3(syms, SAXPY_TEXT, 7, "MUL", MUL, 3, 19, 1);
    NextReg3(syms, SAXPY_TEXT, 8, "ADD", ADD, 3, 3, 2);
    NextStore(syms, SAXPY_TEXT, 9, 25, 3);
  }

  lemma SaxpyAdvance(syms: seq<Sym>)
    requires SpellsTo(syms, SAXPY_TEXT, 10)
    ensures SpellsTo(syms, SAXPY_TEXT, 14)
  {
    hide Find, Dec, OpNamed, SpellsTo, Line2, Line3, Imm3, CmpLine, BrIf, LabelLine;
    hide Kernels.Mov, Kernels.Reg3, Kernels.Cmp, Kernels.BranchIf, Kernels.Branch, Kernels.Load, Kernels.StoreTo;
    hide Kernels.Exit;
    Names();
    NextReg3(syms, SAXPY_TEXT, 10, "IADD", IADD, 23, 23, 21);
    NextReg3(syms, SAXPY_TEXT, 11, "IADD", IADD, 24, 24, 21);
    NextReg3(syms, SAXPY_TEXT, 12, "IADD", IADD, 25, 25, 21);
    NextReg3(syms, SAXPY_TEXT, 13, "ISUB", ISUB, 26, 26, 22);
  }

  lemma SaxpyEnd(syms: seq<Sym>)
    requires SpellsTo(syms, SAXPY_TEXT, 14) && Find(syms, "loop") == Some(4) && Find(syms, "done") == Some(16)
    ensures SpellsTo(syms, SAXPY_TEXT, 19)
  {
    hide Find, Dec, OpNamed, SpellsTo, Line2, Line3, Imm3, CmpLine, BrIf, LabelLine;
    hide Kernels.Mov, Kernels.Reg3, Kernels.Cmp, Kernels.BranchIf, Kernels.Branch, Kernels.Load, Kernels.StoreTo;
    hide Kernels.Exit;
    Names();
    NextCmp(syms, SAXPY_TEXT, 14, 0, 26, 0);
    NextBranchIf(syms, SAXPY_TEXT, 15, 0, "done", 1);
    NextBranch(syms, SAXPY_TEXT, 16, "loop", -12);
    NextLabel(syms, SAXPY_TEXT, 17, "done");
    NextExit(syms, SAXPY_TEXT, 18);
  }

  // ---------- The whole library ----------

  const LIBRARY_TEXT: seq<Line> :=
    Block("saxpy", SAXPY_TEXT.body) + Block("dot", DOT_TEXT.body) + Block("gemm", GEMM_TEXT.body)

  const SAXPY_SYMS: seq<Sym> := [Sym("loop", 4), Sym("done", 16)]
  const DOT_SYMS: seq<Sym> := SAXPY_SYMS + [Sym("dloop", 4), Sym("ddone", 13)]
  const GEMM_SYMS: seq<Sym> := DOT_SYMS + [Sym("gloop", 4), Sym("gdone", 13)]

  /** A body with two labels, at lines p and q. */
  ghost predicate TwoLabels(k: Listing, p: nat, q: nat) {
    && p < q < |k.body| && |k.at| == |k.body| + 1
    && KindOf(k.body[p]) == Label && KindOf(k.body[q]) == Label
    && forall m :: 0 <= m < |k.body| && KindOf(k.body[m]) == Label ==> m == p || m == q
  }

  lemma {:induction false} LabelsOfTwo(k: Listing, p: nat, q: nat, n: nat)
    requires TwoLabels(k, p, q) && n <= |k.body|
    ensures LabelsIn(k.body, k.at, n)
            == (if n > p then [Sym(k.body[p][0].text, k.at[p])] else [])
               + (if n > q then [Sym(k.body[q][0].text, k.at[q])] else [])
  {
    hide KindOf;
    if n > 0 { LabelsOfTwo(k, p, q, n - 1); }
  }

  /** Two new, different labels are indexed properly. */
  lemma TwoIndexed(syms: seq<Sym>, k: Listing, p: nat, q: nat, known: seq<Sym>)
    requires Spells(syms, k) && TwoLabels(k, p, q) && |known| + |k.body| <= MAX_SYMBOLS
    requires Find(known, k.body[p][0].text).None? && Find(known, k.body[q][0].text).None?
    requires k.body[p][0].text != k.body[q][0].text
    ensures Indexed(k.body, k.at, known)
    ensures LabelsIn(k.body, k.at, |k.body|)
            == [Sym(k.body[p][0].text, k.at[p]), Sym(k.body[q][0].text, k.at[q])]
  {
    hide KindOf, Find, ParseInsn, LabelsIn;
    LabelsOfTwo(k, p, q, p);
    LabelsOfTwo(k, p, q, q);
    LabelsOfTwo(k, p, q, |k.body|);
    assert LabelsIn(k.body, k.at, p) == [] && LabelsIn(k.body, k.at, q) == [Sym(k.body[p][0].text, k.at[p])];
    assert known + [] == known;
    FindAfter(known, Sym(k.body[p][0].text, k.at[p]), k.body[q][0].text);
    forall n | 0 <= n < |k.body|
      ensures KindOf(k.body[n]) in {Instruction, Label}
      ensures KindOf(k.body[n]) == Instruction ==> k.at[n + 1] == k.at[n] + 1
      ensures KindOf(k.body[n]) == Label ==>
                k.at[n + 1] == k.at[n] && Find(known + LabelsIn(k.body, k.at, n), k.body[n][0].text).None?
    {
      assert SpellsAt(syms, k, n);
    }
  }

  lemma {:induction false} FindAfter(syms: seq<Sym>, sym: Sym, name: string)
    requires Find(syms, name).None? && sym.name != name
    ensures Find(syms + [sym], name).None?
  {
    if syms == [] {
      assert [sym][1..] == [];
    } else {
      assert (syms + [sym])[1..] == syms[1..] + [sym];
      FindAfter(syms[1..], sym, name);
    }
  }

  /** Labels are the lines that take no room. */
  lemma LabelsAt(syms: seq<Sym>, k: Listing, p: nat, q: nat)
    requires Spells(syms, k) && p < q < |k.body| && k.at[p + 1] == k.at[p] && k.at[q + 1] == k.at[q]
    requires forall m :: 0 <= m < |k.body| && k.at[m + 1] == k.at[m] ==> m == p || m == q
    ensures TwoLabels(k, p, q)
  {
    hide KindOf, ParseInsn;
    assert SpellsAt(syms, k, p) && SpellsAt(syms, k, q);
    forall m | 0 <= m < |k.body| && KindOf(k.body[m]) == Label ensures m == p || m == q {
      assert SpellsAt(syms, k, m);
    }
  }

  lemma LabelsPlaced()
    ensures TwoLabels(SAXPY_TEXT, 4, 17) && TwoLabels(DOT_TEXT, 4, 14) && TwoLabels(GEMM_TEXT, 4, 14)
    ensures SAXPY_TEXT.body[4] == LabelLine("loop") && SAXPY_TEXT.body[17] == LabelLine("done")
    ensures DOT_TEXT.body[4] == LabelLine("dloop") && DOT_TEXT.body[14] == LabelLine("ddone")
    ensures GEMM_TEXT.body[4] == LabelLine("gloop") && GEMM_TEXT.body[14] == LabelLine("gdone")
    ensures SAXPY_TEXT.at[4] == DOT_TEXT.at[4] == GEMM_TEXT.at[4] == 4
    ensures SAXPY_TEXT.at[17] == 16 && DOT_TEXT.at[14] == GEMM_TEXT.at[14] == 13
  {
    hide TwoLabels, Line2, Line3, Imm3, CmpLine, BrIf, LabelLine;
    SaxpyPlaced();
    DotPlaced();
    GemmPlaced();
  }

  lemma SaxpyPlaced()
    ensures TwoLabels(SAXPY_TEXT, 4, 17)
  {
    hide Spells, TwoLabels, Line2, Line3, Imm3, CmpLine, BrIf, LabelLine;
    KernelsSpell();
    LabelsAt(GEMM_SYMS, SAXPY_TEXT, 4, 17);
  }

  lemma DotPlaced()
    ensures TwoLabels(DOT_TEXT, 4, 14)
  {
    hide Spells, TwoLabels, Line2, Line3, Imm3, CmpLine, BrIf, LabelLine;
    KernelsSpell();
    LabelsAt(GEMM_SYMS, DOT_TEXT, 4, 14);
  }

  lemma GemmPlaced()
    ensures TwoLabels(GEMM_TEXT, 4, 14)
  {
    hide Spells, TwoLabels, Line2, Line3, Imm3, CmpLine, BrIf, LabelLine;
    KernelsSpell();
    LabelsAt(GEMM_SYMS, GEMM_TEXT, 4, 14);
  }

  lemma {:induction false} FindAt(syms: seq<Sym>, i: nat, name: string)
    requires i < |syms| && syms[i].name == name && forall j :: 0 <= j < i ==> syms[j].name != name
    ensures Find(syms, name) == Some(syms[i].addr)
  {
    if i > 0 { FindAt(syms[1..], i - 1, name); }
  }

  lemma {:induction false} FindNowhere(syms: seq<Sym>, name: string)
    requires forall j :: 0 <= j < |syms| ==> syms[j].name != name
    ensures Find(syms, name).None?
  {
    if syms != [] { FindNowhere(syms[1..], name); }
  }

  lemma Lookups()
    ensures Find(GEMM_SYMS, "loop") == Some(4) && Find(GEMM_SYMS, "done") == Some(16)
    ensures Find(GEMM_SYMS, "dloop") == Some(4) && Find(GEMM_SYMS, "ddone") == Some(13)
    ensures Find(GEMM_SYMS, "gloop") == Some(4) && Find(GEMM_SYMS, "gdone") == Some(13)
    ensures Find([], "loop").None? && Find([], "done").None?
    ensures Find(SAXPY_SYMS, "dloop").None? && Find(SAXPY_SYMS, "ddone").None?
    ensures Find(DOT_SYMS, "gloop").None? && Find(DOT_SYMS, "gdone").None?
  {
    FindAt(GEMM_SYMS, 0, "loop");
    FindAt(GEMM_SYMS, 1, "done");
    FindAt(GEMM_SYMS, 2, "dloop");
    FindAt(GEMM_SYMS, 3, "ddone");
    FindAt(GEMM_SYMS, 4, "gloop");
    FindAt(GEMM_SYMS, 5, "gdone");
    FindNowhere(SAXPY_SYMS, "dloop");
    FindNowhere(SAXPY_SYMS, "ddone");
    FindNowhere(DOT_SYMS, "gloop");
    FindNowhere(DOT_SYMS, "gdone");
  }

  lemma KernelsSpell()
    ensures Spells(GEMM_SYMS, SAXPY_TEXT) && Spells(GEMM_SYMS, DOT_TEXT) && Spells(GEMM_SYMS, GEMM_TEXT)
  {
    hide Find, Spells;
    Lookups();
    SaxpySpells(GEMM_SYMS);
    DotSpells(GEMM_SYMS);
    GemmSpells(GEMM_SYMS);
  }

  /** Where the three blocks lie in the library text. */
  lemma BlocksPlaced()
    ensures |LIBRARY_TEXT| == 63
    ensures LIBRARY_TEXT[0..21] == Block("saxpy", SAXPY_TEXT.body)
    ensures LIBRARY_TEXT[21..40] == Block("dot", DOT_TEXT.body)
    ensures LIBRARY_TEXT[40..63] == Block("gemm", GEMM_TEXT.body)
    ensures |SAXPY_TEXT.body| == 19 && |DOT_TEXT.body| == 17 && |GEMM_TEXT.body| == 21
  {
    hide Line2, Line3, Imm3, CmpLine, BrIf, LabelLine;
  }

  lemma LibrarySymbols()
    ensures Symbols(LIBRARY_TEXT) == GEMM_SYMS
  {
    hide Find, Spells, TwoLabels, Indexed, LabelsIn, Block, Pass1Line;
    KernelsSpell();
    LabelsPlaced();
    Lookups();
    BlocksPlaced();
    var t := LIBRARY_TEXT;
    assert Pass1(t, 0) == First(false, 0, []);
    hide Pass1, LIBRARY_TEXT, SAXPY_TEXT, DOT_TEXT, GEMM_TEXT;
    TwoIndexed(GEMM_SYMS, SAXPY_TEXT, 4, 17, []);
    BlockLabels(t, 0, "saxpy", SAXPY_TEXT.body, SAXPY_TEXT.at, []);
    assert [] + SAXPY_SYMS == SAXPY_SYMS;
    TwoIndexed(GEMM_SYMS, DOT_TEXT, 4, 14, SAXPY_SYMS);
    BlockLabels(t, 21, "dot", DOT_TEXT.body, DOT_TEXT.at, SAXPY_SYMS);
    TwoIndexed(GEMM_SYMS, GEMM_TEXT, 4, 14, DOT_SYMS);
    BlockLabels(t, 40, "gemm", GEMM_TEXT.body, GEMM_TEXT.at, DOT_SYMS);
  }

  /** The image that the library's source assembles to. */
  function LibraryImage(): Image {
    Image(Bvml.LibraryKernels(), Bvml.Library(), Bytes("saxpy") + [0] + Bytes("dot") + [0] + Bytes("gemm") + [0], [])
  }

  /** The images after each of the three kernels. */
  function Images(): (Image, Image, Image) {
    var p, q, r := Bytes("saxpy") + [0], Bytes("saxpy") + [0] + Bytes("dot") + [0], LibraryImage().pool;
    var ks, c := LibraryImage().kernels, CodeWords(KernelSaxpy.SAXPY);
    (Image(ks[..1], c, p, []), Image(ks[..2], c + CodeWords(KernelDot.DOT), q, []), LibraryImage())
  }

  lemma ImagesBuild()
    ensures var (one, two, three) := Images();
            && AddKernel(EMPTY, Bytes("saxpy"), 0, 0).Some? && AddKernel(one, Bytes("dot"), 17, 0).Some?
            && AddKernel(two, Bytes("gemm"), 32, 0).Some?
            && AddKernel(EMPTY, Bytes("saxpy"), 0, 0).value.(insns := [] + CodeWords(KernelSaxpy.SAXPY)) == one
            && AddKernel(one, Bytes("dot"), 17, 0).value.(insns := one.insns + CodeWords(KernelDot.DOT)) == two
            && AddKernel(two, Bytes("gemm"), 32, 0).value.(insns := two.insns + CodeWords(KernelGemm.GEMM)) == three
            && |one.insns| == 17 && |two.insns| == 32
  {
    assert |KernelSaxpy.SAXPY| == 17 && |KernelDot.DOT| == 15;
    hide KernelSaxpy.SAXPY, KernelDot.DOT, KernelGemm.GEMM, CodeWords;
    var ks := LibraryImage().kernels;
    assert ks[..1] + [ks[1]] == ks[..2] && ks[..2] + [ks[2]] == ks;
    assert [] + Bytes("saxpy") + [0] == Bytes("saxpy") + [0];
  }

  /** Assembling the kernels' source gives exactly the code and entries that the library runs. */
  lemma LibraryAssembles()
    ensures Assemble(LIBRARY_TEXT) == Some(LibraryImage())
  {
    hide Spells, Block, Pass2Line, CodeWords;
    KernelsSpell();
    LibrarySymbols();
    BlocksPlaced();
    var t, y := LIBRARY_TEXT, GEMM_SYMS;
    assert Pass2(t, y, 0) == Some(Second(false, 0, EMPTY));
    assert SAXPY_TEXT.prog == KernelSaxpy.SAXPY && DOT_TEXT.prog == KernelDot.DOT && GEMM_TEXT.prog == KernelGemm.GEMM;
    hide Pass2, LIBRARY_TEXT, SAXPY_TEXT, DOT_TEXT, GEMM_TEXT, Symbols;
    ImagesBuild();
    assert |KernelSaxpy.SAXPY| == 17 && |KernelDot.DOT| == 15 && |KernelGemm.GEMM| == 19;
    hide KernelSaxpy.SAXPY, KernelDot.DOT, KernelGemm.GEMM, Images, AddKernel;
    var (one, two, three) := Images();
    BlockSteps(t, y, 0, EMPTY, "saxpy", SAXPY_TEXT);
    BlockSteps(t, y, 21, one, "dot", DOT_TEXT);
    BlockSteps(t, y, 40, two, "gemm", GEMM_TEXT);
  }
}
