/** What every form of instruction line is assembled to, as a number. */
module BradcLaws {
  import opened Bits
  import opened BradVector
  import opened Bradc
  import Bvbc

  // ---------- Operands ----------

  function DigitOf(c: char): int { c as int - 48 }

  /** One to three decimal digits, and their value. */
  predicate Written(s: string, n: nat) {
    && 1 <= |s| <= 3 && (forall i :: 0 <= i < |s| ==> 0 <= DigitOf(s[i]) <= 9)
    && n == if |s| == 1 then DigitOf(s[0])
            else if |s| == 2 then 10 * DigitOf(s[0]) + DigitOf(s[1])
            else 100 * DigitOf(s[0]) + 10 * DigitOf(s[1]) + DigitOf(s[2])
  }

  lemma {:induction false} ReadsDigits(s: string, n: nat)
    requires Written(s, n)
    ensures DigitsValue(s) == Some(n)
  {
    if |s| == 1 {
      assert s[..0] == [];
    } else {
      ReadsDigits(s[..|s| - 1], if |s| == 2 then DigitOf(s[0]) else 10 * DigitOf(s[0]) + DigitOf(s[1]));
    }
  }

  lemma Reads(s: string, n: nat)
    requires Written(s, n)
    ensures Decimal(s) == Some(n)
  {
    ReadsDigits(s, n);
  }

  /** Registers S0 to S255, V0 to V63 and P0 to P15, in either case; any other letter or number is refused. */
  lemma RegisterIs(t: string, n: nat)
    requires |t| >= 2 && Written(t[1..], n)
    ensures ParseReg(t) == if t[0] in {'S', 's'} && n < 256 then Some(Operand(S, n))
                           else if t[0] in {'V', 'v'} && n < 64 then Some(Operand(V, n))
                           else if t[0] in {'P', 'p'} && n < 16 then Some(Operand(P, n))
                           else None
  {
    Reads(t[1..], n);
    hide Decimal, Written;
  }

  /** A scalar, vector or predicate register. */
  predicate Scalar(t: Tok, n: nat) { t.Id? && |t.text| >= 2 && t.text[0] in {'S', 's'} && Written(t.text[1..], n) && n < 256 }

  predicate Vector(t: Tok, n: nat) { t.Id? && |t.text| >= 2 && t.text[0] in {'V', 'v'} && Written(t.text[1..], n) && n < 64 }

  predicate Predicate(t: Tok, n: nat) { t.Id? && |t.text| >= 2 && t.text[0] in {'P', 'p'} && Written(t.text[1..], n) && n < 16 }

  lemma OperandIs(line: Line, i: nat, n: nat)
    requires i < |line|
    ensures Scalar(line[i], n) ==> ParseOperand(line, i) == Some(Operand(S, n))
    ensures Vector(line[i], n) ==> ParseOperand(line, i) == Some(Operand(V, n))
    ensures Predicate(line[i], n) ==> ParseOperand(line, i) == Some(Operand(P, n))
  {
    hide ParseReg, Written;
    if line[i].Id? && |line[i].text| >= 2 && Written(line[i].text[1..], n) { RegisterIs(line[i].text, n); }
  }

  // ---------- Lines ----------

  /** Nothing, or @ and a predicate register, with the field that it stands for. */
  predicate Prefix(pr: seq<Tok>, pred: nat) {
    if pred == 0 then pr == []
    else |pr| == 2 && pr[0] == At && pr[1].Id? && |pr[1].text| >= 2 && pr[1].text[0] == 'P'
         && Written(pr[1].text[1..], pred - 1) && pred <= 16
  }

  function Form(mn: string, pr: seq<Tok>, ops: seq<Tok>): Line { [Id(mn)] + pr + ops }

  /** The word of the instruction that was found, as a number. */
  ghost predicate Encodes(r: Option<Insn>, code: nat, pred: nat, dst: nat, src1: nat, src2: nat, imm: int) {
    && r.Some?
    && WordOf(r.value) == code * 0x100_0000_0000_0000 + pred * 0x1_0000_0000_0000 + dst * 0x100_0000_0000
                          + src1 * 0x1_0000_0000 + src2 * 0x100_0000 + imm % 256 * 0x1_0000
  }

  lemma EncodesFields(op: Op, pred: nat, dst: nat, src1: nat, src2: nat, imm: int)
    requires OpCode(op) < 256 && pred < 256 && dst < 256 && src1 < 256 && src2 < 256
    ensures Encodes(Some(Make(op, pred, dst, src1, src2, imm)), OpCode(op), pred, dst, src1, src2, imm)
  {
    hide OpCode, WordOf;
    WordLayout(Make(op, pred, dst, src1, src2, imm));
  }

  /** The first operand comes after the predicate. */
  lemma Parts(mn: string, pr: seq<Tok>, pred: nat, ops: seq<Tok>)
    requires Prefix(pr, pred) && (ops != [] ==> ops[0] !in {At, Comma})
    ensures var line := Form(mn, pr, ops);
            && ParsePred(line) == Some((pred, 1 + |pr|)) && Mnemonic(line) == mn && line[1 + |pr|..] == ops
  {
    hide Decimal, Written;
    var line := Form(mn, pr, ops);
    if pred > 0 {
      Reads(pr[1].text[1..], pred - 1);
      assert line[1] == At && line[2] == pr[1];
    }
  }

  /** Where the operands are. */
  lemma Places(line: Line, i: nat, ops: seq<Tok>)
    requires i <= |line| && line[i..] == ops && |ops| in {3, 5} && ops[1] == Comma && (|ops| == 5 ==> ops[3] == Comma)
    ensures |line| == i + |ops| && line[i] == ops[0] && line[i + 2] == ops[2] && (|ops| == 5 ==> line[i + 4] == ops[4])
    ensures NextSrc(line, i) == i + 2 && (|ops| == 5 ==> NextSrc(line, i + 2) == i + 4)
  {
    assert |line| == i + |ops|;
    assert forall k :: 0 <= k < |ops| ==> line[i + k] == ops[k];
    assert line[i + 1] == ops[1];
    if |ops| == 5 { assert line[i + 3] == ops[3]; }
  }

  // ---------- Mnemonics ----------

  /** Operations on three registers, and their numbers. */
  const THREE: seq<(string, Op)> := [
    ("ADD", ADD), ("SUB", SUB), ("MUL", MUL), ("MAD", MAD), ("DIV", DIV), ("MIN", MIN), ("MAX", MAX), ("SEL", SEL),
    ("IADD", IADD), ("ISUB", ISUB), ("IMUL", IMUL), ("IDIV", IDIV), ("IMAD", IMAD), ("SHL", SHL), ("SHR", SHR),
    ("AND", AND), ("OR", OR), ("XOR", XOR)]

  /** Operations with one source. */
  const ONE: seq<(string, Op)> := [
    ("SQRT", SQRT), ("RSQRT", RSQRT), ("RCP", RCP), ("SIN", SIN), ("COS", COS), ("EXP2", EXP2), ("LOG2", LOG2),
    ("ABS", ABS), ("NEG", NEG), ("POPC", POPC), ("CLZ", CLZ), ("NOT", NOT)]

  /** Operations without operands, branches, and operations with a destination alone. */
  const BARE: seq<(string, Op)> := [("RET", RET), ("EXIT", EXIT), ("BAR", BAR), ("TRAP", TRAP)]
  const BRANCH: seq<(string, Op)> := [("BR", BR), ("BR_COND", BR_COND), ("CALL", CALL)]
  const ASKING: seq<(string, Op)> := [("LANE_ID", LANE_ID), ("WARP_SZ", WARP_SZ), ("CLOCK", CLOCK)]

  lemma ThreeNamed(k: nat)
    requires k < |THREE|
    ensures OpNamed(THREE[k].0) == Some(THREE[k].1) && THREE[k].0 != "MOV"
  {
  }

  lemma OneNamed(k: nat)
    requires k < |ONE|
    ensures OpNamed(ONE[k].0) == Some(ONE[k].1) && ONE[k].0 != "MOV"
  {
  }

  lemma OthersNamed(k: nat)
    ensures k < |BARE| ==> OpNamed(BARE[k].0) == Some(BARE[k].1)
    ensures k < |BRANCH| ==> OpNamed(BRANCH[k].0) == Some(BRANCH[k].1)
    ensures k < |ASKING| ==> OpNamed(ASKING[k].0) == Some(ASKING[k].1)
  {
  }

  // ---------- The forms ----------

  lemma ThreeOperands(line: Line, i: nat, mn: string, op: Op, pred: nat, d: nat, a: Operand, b: nat)
    requires exists k :: 0 <= k < |THREE| && THREE[k] == (mn, op)
    requires i + 5 == |line| && NextSrc(line, i) == i + 2 && NextSrc(line, i + 2) == i + 4 && !NumberAt(line, i + 4)
    requires ParseOperand(line, i) == Some(Operand(S, d)) && ParseOperand(line, i + 2) == Some(a)
    requires ParseOperand(line, i + 4) == Some(Operand(S, b))
    ensures ParseOperands(line, i, mn, op, pred) == Some(Make(op, pred, d, a.num, b, 0))
  {
    var k :| 0 <= k < |THREE| && THREE[k] == (mn, op);
    ThreeKind(k);
    hide THREE, NextSrc, NumberAt, ParseOperand, OpCode, SingleSource, Make;
  }

  lemma ThreeKind(k: nat)
    requires k < |THREE|
    ensures var (mn, op) := THREE[k];
            && OpCode(op) < 0x20 && !SingleSource(op) && mn != "MOV"
            && op !in {RET, EXIT, BAR, TRAP, BR, BR_COND, CALL, LANE_ID, WARP_SZ, CLOCK, CMP, ADDi}
  {
  }

  /** The other forms, from the operands on. */
  lemma TwoOperands(line: Line, i: nat, mn: string, op: Op, pred: nat, d: nat, a: nat)
    requires (mn == "MOV" && op == ADDi) || (mn != "MOV" && exists k :: 0 <= k < |ONE| && ONE[k] == (mn, op))
    requires i + 3 == |line| && NextSrc(line, i) == i + 2
    requires ParseOperand(line, i) == Some(Operand(S, d)) && ParseOperand(line, i + 2) == Some(Operand(S, a))
    ensures ParseOperands(line, i, mn, op, pred) == Some(Make(op, pred, d, a, 0, 0))
  {
    assert OpCode(ADDi) == 0x01;
    if mn != "MOV" {
      var k :| 0 <= k < |ONE| && ONE[k] == (mn, op);
      OneKind(k);
    }
    hide ONE, NumberAt, NextSrc, ParseOperand, OpCode, SingleSource, Make;
  }

  lemma ImmediateOperands(line: Line, i: nat, pred: nat, d: nat, a: nat)
    requires i + 5 == |line| && NextSrc(line, i) == i + 2 && NextSrc(line, i + 2) == i + 4
    requires ParseOperand(line, i) == Some(Operand(S, d)) && ParseOperand(line, i + 2) == Some(Operand(S, a))
    ensures ParseOperands(line, i, "ADDi", ADDi, pred)
            == if line[i + 4].Num? then Some(Make(ADDi, pred, d, a, 0, line[i + 4].v)) else None
  {
    assert OpCode(ADDi) == 0x01;
    hide NextSrc, ParseOperand, OpCode, SingleSource, Make;
  }

  lemma CmpOperands(line: Line, i: nat, pred: nat, d: nat, a: nat, b: nat)
    requires i + 5 == |line| && NextSrc(line, i) == i + 2 && NextSrc(line, i + 2) == i + 4 && !line[i + 4].Num?
    requires ParseOperand(line, i) == Some(Operand(P, d)) && ParseOperand(line, i + 2) == Some(Operand(S, a))
    requires ParseOperand(line, i + 4) == Some(Operand(S, b))
    ensures ParseOperands(line, i, "CMP", CMP, pred) == Some(Make(CMP, pred, d, a, b, 0))
  {
    assert OpCode(CMP) == 0x0C;
    hide NextSrc, ParseOperand, OpCode, SingleSource, Make;
  }

  lemma LoadOperands(line: Line, i: nat, pred: nat, d: nat, base: nat)
    requires i + 5 == |line| && NextSrc(line, i) == i + 2 && NextSrc(line, i + 2) == i + 4
    requires ParseOperand(line, i) == Some(Operand(S, d)) && ParseOperand(line, i + 2) == Some(Operand(S, base))
    ensures ParseOperands(line, i, "LOAD", LOAD, pred)
            == if line[i + 4].Num? then Some(Make(LOAD, pred, d, base, 0, line[i + 4].v)) else None
  {
    assert OpCode(LOAD) == 0x30;
    hide NextSrc, ParseOperand, OpCode, SingleSource, Make;
  }

  lemma StoreOperands(line: Line, i: nat, mn: string, op: Op, pred: nat, base: nat, a: nat)
    requires op in {STORE, Unmodelled(0x36)}
    requires i + 5 == |line| && NextSrc(line, i) == i + 2 && NextSrc(line, i + 2) == i + 4
    requires ParseOperand(line, i) == Some(Operand(S, base))
    requires ParseOperand(line, i + 2) == Some(Operand(if op == STORE then S else V, a))
    ensures ParseOperands(line, i, mn, op, pred)
            == if line[i + 4].Num? then Some(Make(op, pred, a, base, 0, line[i + 4].v)) else None
  {
    assert OpCode(op) == if op == STORE then 0x34 else 0x36;
    hide NextSrc, ParseOperand, OpCode, SingleSource, Make;
  }

  lemma Ordinary(syms: seq<Sym>, kpc: nat, mn: string, pr: seq<Tok>, pred: nat, ops: seq<Tok>, op: Op)
    requires Prefix(pr, pred) && ops != [] && ops[0] !in {At, Comma} && OpNamed(mn) == Some(op)
    requires op !in {RET, EXIT, BAR, TRAP, BR, BR_COND, CALL, LANE_ID, WARP_SZ, CLOCK}
    ensures var line := Form(mn, pr, ops);
            line[1 + |pr|..] == ops && ParseInsn(syms, kpc, line) == ParseOperands(line, 1 + |pr|, mn, op, pred)
  {
    hide OpNamed, ParseOperands, ParsePred, Prefix;
    Parts(mn, pr, pred, ops);
  }

  lemma PredSmall(pr: seq<Tok>, pred: nat)
    requires Prefix(pr, pred)
    ensures pred <= 16
  {
  }

  /** op Sd, Sa, Sb, under any predicate. */
  lemma ThreeRegisters(syms: seq<Sym>, kpc: nat, k: nat, pr: seq<Tok>, pred: nat, td: Tok, ta: Tok, tb: Tok,
                       d: nat, a: nat, b: nat)
    requires k < |THREE| && Prefix(pr, pred) && Scalar(td, d) && Scalar(ta, a) && Scalar(tb, b)
    ensures Encodes(ParseInsn(syms, kpc, Form(THREE[k].0, pr, [td, Comma, ta, Comma, tb])), OpCode(THREE[k].1),
                    pred, d, a, b, 0)
  {
    var (mn, op) := THREE[k];
    var ops, i := [td, Comma, ta, Comma, tb], 1 + |pr|;
    var line := Form(mn, pr, ops);
    ThreeNamed(k);
    ThreeKind(k);
    PredSmall(pr, pred);
    hide THREE, OpNamed, ParseOperands, ParseOperand, Prefix, Written, Form, ParseInsn, Encodes, NextSrc, Make, OpCode;
    Ordinary(syms, kpc, mn, pr, pred, ops, op);
    Places(line, i, ops);
    OperandIs(line, i, d);
    OperandIs(line, i + 2, a);
    OperandIs(line, i + 4, b);
    ThreeOperands(line, i, mn, op, pred, d, Operand(S, a), b);
    EncodesFields(op, pred, d, a, b, 0);
  }

  /** A number in the last place is refused, and so is a destination of another class. */
  lemma ThreeRefused(syms: seq<Sym>, kpc: nat, k: nat, pr: seq<Tok>, pred: nat, td: Tok, ta: Tok, tb: Tok, d: nat)
    requires k < |THREE| && Prefix(pr, pred) && ta != Comma && td != At
    requires (Scalar(td, d) && tb.Num?) || Vector(td, d) || Predicate(td, d)
    ensures ParseInsn(syms, kpc, Form(THREE[k].0, pr, [td, Comma, ta, Comma, tb])) == None
  {
    var (mn, op) := THREE[k];
    var ops, i := [td, Comma, ta, Comma, tb], 1 + |pr|;
    var line := Form(mn, pr, ops);
    ThreeNamed(k);
    ThreeKind(k);
    hide THREE, OpNamed, ParseOperand, Prefix, Written, Form, ParseInsn, NextSrc, Make, OpCode;
    Ordinary(syms, kpc, mn, pr, pred, ops, op);
    Places(line, i, ops);
    OperandIs(line, i, d);
  }

  /** op Sd, Sa. */
  lemma OneSource(syms: seq<Sym>, kpc: nat, k: nat, pr: seq<Tok>, pred: nat, td: Tok, ta: Tok, d: nat, a: nat)
    requires k < |ONE| && Prefix(pr, pred) && Scalar(td, d) && Scalar(ta, a)
    ensures Encodes(ParseInsn(syms, kpc, Form(ONE[k].0, pr, [td, Comma, ta])), OpCode(ONE[k].1), pred, d, a, 0, 0)
  {
    var (mn, op) := ONE[k];
    var ops, i := [td, Comma, ta], 1 + |pr|;
    var line := Form(mn, pr, ops);
    OneNamed(k);
    OneKind(k);
    PredSmall(pr, pred);
    hide ParseOperands, ONE, OpNamed, ParseOperand, Prefix, Written, Form, ParseInsn, Encodes, NextSrc, Make, OpCode, SingleSource;
    Ordinary(syms, kpc, mn, pr, pred, ops, op);
    Places(line, i, ops);
    OperandIs(line, i, d);
    OperandIs(line, i + 2, a);
    TwoOperands(line, i, mn, op, pred, d, a);
    EncodesFields(op, pred, d, a, 0, 0);
  }

  lemma OneKind(k: nat)
    requires k < |ONE|
    ensures var (mn, op) := ONE[k];
            && (OpCode(op) < 0x20 || 0xF0 <= OpCode(op) < 256) && SingleSource(op) && mn != "MOV"
            && op !in {RET, EXIT, BAR, TRAP, BR, BR_COND, CALL, LANE_ID, WARP_SZ, CLOCK, CMP, ADDi}
  {
  }

  /** ADDi Sd, Sa, v: the low byte of v is the immediate. */
  lemma Immediate(syms: seq<Sym>, kpc: nat, pr: seq<Tok>, pred: nat, td: Tok, ta: Tok, tv: Tok, d: nat, a: nat)
    requires Prefix(pr, pred) && Scalar(td, d) && Scalar(ta, a)
    ensures var r := ParseInsn(syms, kpc, Form("ADDi", pr, [td, Comma, ta, Comma, tv]));
            if tv.Num? then Encodes(r, 0x01, pred, d, a, 0, tv.v) else r == None
  {
    var ops, i := [td, Comma, ta, Comma, tv], 1 + |pr|;
    var line := Form("ADDi", pr, ops);
    assert OpNamed("ADDi") == Some(ADDi);
    assert OpCode(ADDi) == 0x01;
    PredSmall(pr, pred);
    hide ParseOperands, OpNamed, ParseOperand, Prefix, Written, Form, ParseInsn, Encodes, NextSrc, Make, OpCode, SingleSource;
    Ordinary(syms, kpc, "ADDi", pr, pred, ops, ADDi);
    Places(line, i, ops);
    OperandIs(line, i, d);
    OperandIs(line, i + 2, a);
    ImmediateOperands(line, i, pred, d, a);
    if tv.Num? { EncodesFields(ADDi, pred, d, a, 0, tv.v); }
  }

  /** MOV Sd, Sa is ADDi with 0. */
  lemma Move(syms: seq<Sym>, kpc: nat, pr: seq<Tok>, pred: nat, td: Tok, ta: Tok, d: nat, a: nat)
    requires Prefix(pr, pred) && Scalar(td, d) && Scalar(ta, a)
    ensures Encodes(ParseInsn(syms, kpc, Form("MOV", pr, [td, Comma, ta])), 0x01, pred, d, a, 0, 0)
  {
    var ops, i := [td, Comma, ta], 1 + |pr|;
    var line := Form("MOV", pr, ops);
    assert OpNamed("MOV") == Some(ADDi);
    assert OpCode(ADDi) == 0x01;
    PredSmall(pr, pred);
    hide ParseOperands, OpNamed, ParseOperand, Prefix, Written, Form, ParseInsn, Encodes, NextSrc, Make, OpCode, SingleSource;
    Ordinary(syms, kpc, "MOV", pr, pred, ops, ADDi);
    Places(line, i, ops);
    OperandIs(line, i, d);
    OperandIs(line, i + 2, a);
    TwoOperands(line, i, "MOV", ADDi, pred, d, a);
    EncodesFields(ADDi, pred, d, a, 0, 0);
  }

  /** CMP Pd, Sa, Sb. */
  lemma Comparison(syms: seq<Sym>, kpc: nat, pr: seq<Tok>, pred: nat, td: Tok, ta: Tok, tb: Tok, d: nat, a: nat, b: nat)
    requires Prefix(pr, pred) && Predicate(td, d) && Scalar(ta, a) && Scalar(tb, b)
    ensures Encodes(ParseInsn(syms, kpc, Form("CMP", pr, [td, Comma, ta, Comma, tb])), 0x0C, pred, d, a, b, 0)
  {
    var ops, i := [td, Comma, ta, Comma, tb], 1 + |pr|;
    var line := Form("CMP", pr, ops);
    assert OpNamed("CMP") == Some(CMP);
    assert OpCode(CMP) == 0x0C;
    PredSmall(pr, pred);
    hide ParseOperands, OpNamed, ParseOperand, Prefix, Written, Form, ParseInsn, Encodes, NextSrc, Make, OpCode, SingleSource;
    Ordinary(syms, kpc, "CMP", pr, pred, ops, CMP);
    Places(line, i, ops);
    OperandIs(line, i, d);
    OperandIs(line, i + 2, a);
    OperandIs(line, i + 4, b);
    CmpOperands(line, i, pred, d, a, b);
    EncodesFields(CMP, pred, d, a, b, 0);
  }

  /** LOAD Sd, Sb, v: the base is the first source, the low byte of v the offset. */
  lemma Load(syms: seq<Sym>, kpc: nat, pr: seq<Tok>, pred: nat, td: Tok, ta: Tok, tv: Tok, d: nat, base: nat)
    requires Prefix(pr, pred) && Scalar(td, d) && Scalar(ta, base)
    ensures var r := ParseInsn(syms, kpc, Form("LOAD", pr, [td, Comma, ta, Comma, tv]));
            if tv.Num? then Encodes(r, 0x30, pred, d, base, 0, tv.v) else r == None
  {
    var ops, i := [td, Comma, ta, Comma, tv], 1 + |pr|;
    var line := Form("LOAD", pr, ops);
    assert OpNamed("LOAD") == Some(LOAD);
    assert OpCode(LOAD) == 0x30;
    PredSmall(pr, pred);
    hide ParseOperands, OpNamed, ParseOperand, Prefix, Written, Form, ParseInsn, Encodes, NextSrc, Make, OpCode;
    Ordinary(syms, kpc, "LOAD", pr, pred, ops, LOAD);
    Places(line, i, ops);
    OperandIs(line, i, d);
    OperandIs(line, i + 2, base);
    LoadOperands(line, i, pred, d, base);
    if tv.Num? { EncodesFields(LOAD, pred, d, base, 0, tv.v); }
  }

  lemma StoreNamed(wide: bool)
    ensures var op := if wide then Unmodelled(0x36) else STORE;
            OpNamed(if wide then "STOREV" else "STORE") == Some(op) && OpCode(op) == if wide then 0x36 else 0x34
  {
  }

  /** STORE Sb, Sv, v and STOREV Sb, Vv, v: the value goes to the place of the destination. */
  lemma Store(syms: seq<Sym>, kpc: nat, pr: seq<Tok>, pred: nat, tb: Tok, ta: Tok, tv: Tok, base: nat, a: nat, wide: bool)
    requires Prefix(pr, pred) && Scalar(tb, base) && if wide then Vector(ta, a) else Scalar(ta, a)
    ensures var r := ParseInsn(syms, kpc, Form(if wide then "STOREV" else "STORE", pr, [tb, Comma, ta, Comma, tv]));
            if tv.Num? then Encodes(r, if wide then 0x36 else 0x34, pred, a, base, 0, tv.v) else r == None
  {
    var mn, op := if wide then "STOREV" else "STORE", if wide then Unmodelled(0x36) else STORE;
    var ops, i := [tb, Comma, ta, Comma, tv], 1 + |pr|;
    var line := Form(mn, pr, ops);
    StoreNamed(wide);
    PredSmall(pr, pred);
    hide ParseOperands, OpNamed, ParseOperand, Prefix, Written, Form, ParseInsn, Encodes, NextSrc, Make, OpCode;
    Ordinary(syms, kpc, mn, pr, pred, ops, op);
    Places(line, i, ops);
    OperandIs(line, i, base);
    OperandIs(line, i + 2, a);
    StoreOperands(line, i, mn, op, pred, base, a);
    if tv.Num? { EncodesFields(op, pred, a, base, 0, tv.v); }
  }

  /** RET, EXIT, BAR and TRAP ignore the rest of their line. */
  lemma Bare(syms: seq<Sym>, kpc: nat, k: nat, pr: seq<Tok>, pred: nat, ops: seq<Tok>)
    requires k < |BARE| && Prefix(pr, pred) && (ops != [] ==> ops[0] !in {At, Comma})
    ensures Encodes(ParseInsn(syms, kpc, Form(BARE[k].0, pr, ops)), OpCode(BARE[k].1), pred, 0, 0, 0, 0)
  {
    var (mn, op) := BARE[k];
    OthersNamed(k);
    assert OpCode(op) < 256;
    PredSmall(pr, pred);
    hide OpNamed, Prefix, Written, Form, Encodes, Make, OpCode, ParsePred, ParseOperands, ParseBranch, ParseOperand;
    Parts(mn, pr, pred, ops);
    EncodesFields(op, pred, 0, 0, 0, 0);
  }

  /** LANE_ID Sd, WARP_SZ Sd and CLOCK Sd. */
  lemma Asking(syms: seq<Sym>, kpc: nat, k: nat, pr: seq<Tok>, pred: nat, td: Tok, d: nat)
    requires k < |ASKING| && Prefix(pr, pred) && Scalar(td, d)
    ensures Encodes(ParseInsn(syms, kpc, Form(ASKING[k].0, pr, [td])), OpCode(ASKING[k].1), pred, d, 0, 0, 0)
  {
    var (mn, op) := ASKING[k];
    var line, i := Form(mn, pr, [td]), 1 + |pr|;
    OthersNamed(k);
    assert OpCode(op) < 256 && op !in {RET, EXIT, BAR, TRAP, BR, BR_COND, CALL};
    PredSmall(pr, pred);
    hide ASKING, OpNamed, Prefix, Written, Encodes, Make, OpCode, ParsePred, ParseOperands, ParseBranch, ParseOperand;
    Parts(mn, pr, pred, [td]);
    hide Form;
    assert line[i] == line[i..][0] == td;
    OperandIs(line, i, d);
    EncodesFields(op, pred, d, 0, 0, 0);
  }

  /** A branch by a number: its low byte is the offset. */
  lemma NumberedBranch(syms: seq<Sym>, kpc: nat, k: nat, pr: seq<Tok>, pred: nat, v: int)
    requires k < |BRANCH| && Prefix(pr, pred)
    ensures Encodes(ParseInsn(syms, kpc, Form(BRANCH[k].0, pr, [Num(v)])), OpCode(BRANCH[k].1), pred, 0, 0, 0, v)
  {
    var (mn, op) := BRANCH[k];
    var line, i := Form(mn, pr, [Num(v)]), 1 + |pr|;
    BranchParsed(syms, kpc, k, pr, pred, Num(v));
    PredSmall(pr, pred);
    hide BRANCH, ParseInsn, Prefix, Encodes, Make, OpCode, Form;
    assert line[i] == line[i..][0] == Num(v);
    EncodesFields(op, pred, 0, 0, 0, v);
  }

  lemma BranchParsed(syms: seq<Sym>, kpc: nat, k: nat, pr: seq<Tok>, pred: nat, t: Tok)
    requires k < |BRANCH| && Prefix(pr, pred) && t !in {At, Comma}
    ensures var (mn, op) := BRANCH[k];
            var line := Form(mn, pr, [t]);
            && OpCode(op) < 256 && line[1 + |pr|..] == [t]
            && ParseInsn(syms, kpc, line) == ParseBranch(syms, kpc, line, 1 + |pr|, op, pred)
  {
    var (mn, op) := BRANCH[k];
    OthersNamed(k);
    assert OpCode(op) < 256 && op in {BR, BR_COND, CALL} && op !in {RET, EXIT, BAR, TRAP};
    hide BRANCH, OpNamed, Prefix, Form, OpCode, ParsePred, ParseOperands, ParseBranch, ParseOperand;
    Parts(mn, pr, pred, [t]);
  }

  /** A branch to a label: the first symbol of that name, counted from the next instruction, within a byte. */
  lemma LabelledBranch(syms: seq<Sym>, kpc: nat, k: nat, pr: seq<Tok>, pred: nat, name: string, j: nat)
    requires k < |BRANCH| && Prefix(pr, pred)
    requires j <= |syms| && (forall m :: 0 <= m < j ==> syms[m].name != name) && (j < |syms| ==> syms[j].name == name)
    ensures var r := ParseInsn(syms, kpc, Form(BRANCH[k].0, pr, [Id(name)]));
            if j < |syms| && -128 <= syms[j].addr - kpc - 1 < 128
            then Encodes(r, OpCode(BRANCH[k].1), pred, 0, 0, 0, syms[j].addr - kpc - 1)
            else r == None
  {
    var (mn, op) := BRANCH[k];
    var line, i := Form(mn, pr, [Id(name)]), 1 + |pr|;
    BranchParsed(syms, kpc, k, pr, pred, Id(name));
    FirstFound(syms, name, j);
    PredSmall(pr, pred);
    hide BRANCH, ParseInsn, Prefix, Encodes, Make, OpCode, Form, Find, ParseBranch;
    assert line[i] == line[i..][0] == Id(name);
    LabelParsed(syms, kpc, line, i, op, pred);
    if j < |syms| { EncodesFields(op, pred, 0, 0, 0, syms[j].addr - kpc - 1); }
  }

  lemma LabelParsed(syms: seq<Sym>, kpc: nat, line: Line, i: nat, op: Op, pred: nat)
    requires i < |line| && line[i].Id?
    ensures ParseBranch(syms, kpc, line, i, op, pred)
            == match Find(syms, line[i].text)
               case Some(at) => if -128 <= at - kpc - 1 < 128 then Some(Make(op, pred, 0, 0, 0, at - kpc - 1)) else None
               case None => None
  {
    hide Find, Make;
  }

  lemma {:induction false} FirstFound(syms: seq<Sym>, name: string, j: nat)
    requires j <= |syms| && (forall m :: 0 <= m < j ==> syms[m].name != name) && (j < |syms| ==> syms[j].name == name)
    ensures Find(syms, name) == if j < |syms| then Some(syms[j].addr) else None
  {
    if j > 0 {
      assert forall m :: 0 <= m < j - 1 ==> syms[1..][m] == syms[m + 1];
      FirstFound(syms[1..], name, j - 1);
    }
  }

  /** A label line inside a kernel adds a symbol when the name is new and there are fewer than 1024. */
  lemma LabelAdds(st: First, name: string, rest: seq<Tok>)
    ensures var after := Pass1Line(st, [Id(name), Colon] + rest);
            if st.inKernel && (forall m :: 0 <= m < |st.syms| ==> st.syms[m].name != name) && |st.syms| < 1024
            then after == First(true, st.kpc, st.syms + [Sym(name, st.kpc)]) else after == st
  {
    var line := [Id(name), Colon] + rest;
    assert line[0] == Id(name) && line[1] == Colon;
    var j := FirstOf(st.syms, name);
    FirstFound(st.syms, name, j);
    hide Find;
  }

  lemma FirstOf(syms: seq<Sym>, name: string) returns (j: nat)
    ensures j <= |syms| && (forall m :: 0 <= m < j ==> syms[m].name != name) && (j < |syms| ==> syms[j].name == name)
  {
    j := 0;
    while j < |syms| && syms[j].name != name
      invariant j <= |syms| && forall m :: 0 <= m < j ==> syms[m].name != name
    {
      j := j + 1;
    }
  }

  /** What the other lines do to the count: a directive starts it again, an instruction in a kernel adds one. */
  lemma LinesCounted(st: First, line: Line)
    ensures line == [] ==> Pass1Line(st, line) == st
    ensures |line| > 1 && line[0] == Dot && line[1] == Id("kernel") ==> Pass1Line(st, line) == First(true, 0, st.syms)
    ensures |line| > 1 && line[0] == Dot && line[1] == Id("end") ==> Pass1Line(st, line) == First(false, 0, st.syms)
    ensures line != [] && line[0].Id? && (|line| == 1 || line[1] != Colon) ==>
              Pass1Line(st, line) == First(st.inKernel, if st.inKernel then st.kpc + 1 else st.kpc, st.syms)
  {
  }

  /** .end closes an open kernel and fails outside of one. */
  lemma EndCloses(syms: seq<Sym>, st: Second, rest: seq<Tok>)
    ensures Pass2Line(syms, st, [Dot, Id("end")] + rest)
            == if st.inKernel then Some(Second(false, 0, st.img)) else None
  {
    var line := [Dot, Id("end")] + rest;
    assert line[0] == Dot && line[1] == Id("end");
  }

  /** .kernel opens one at the next instruction, with no arguments; it fails inside a kernel and without a name. */
  lemma KernelOpens(syms: seq<Sym>, st: Second, rest: seq<Tok>)
    requires rest != [] ==> rest[0] != Comma
    ensures var r := Pass2Line(syms, st, [Dot, Id("kernel")] + rest);
            if st.inKernel || rest == [] || !rest[0].Id? then r == None
            else var img := Bvbc.AddKernel(st.img, Bytes(rest[0].text), |st.img.insns| % 0x1_0000_0000, 0);
                 r == if img.Some? then Some(Second(true, 0, img.value)) else None
  {
    var line := [Dot, Id("kernel")] + rest;
    assert line[0] == Dot && line[1] == Id("kernel");
    if rest != [] { assert line[2] == rest[0]; }
    hide Bvbc.AddKernel, Bytes;
  }

  /** An instruction outside a kernel fails. */
  lemma OutsideFails(syms: seq<Sym>, st: Second, line: Line)
    requires !st.inKernel && line != [] && line[0].Id? && (|line| == 1 || line[1] != Colon)
    ensures Pass2Line(syms, st, line) == None
  {
    hide ParseInsn;
  }

  // ---------- Documented forms that do not assemble ----------

  /**
    LOADV V4, S5, 0 is a documented form, but the destination has to be a vector register for one
    test and a scalar one for the next: no line with that mnemonic is accepted.
   */
  lemma VectorLoadRefused(syms: seq<Sym>, kpc: nat, line: Line)
    requires Mnemonic(line) == "LOADV"
    ensures ParseInsn(syms, kpc, line) == None
  {
    assert OpNamed("LOADV") == Some(Unmodelled(0x32));
    var pp := ParsePred(line);
    if pp.Some? { VectorLoadOperands(line, pp.value.1, pp.value.0); }
    hide OpNamed, ParsePred, ParseOperands, ParseBranch;
  }

  lemma VectorLoadOperands(line: Line, i: nat, pred: nat)
    ensures ParseOperands(line, i, "LOADV", Unmodelled(0x32), pred) == None
  {
    assert OpCode(Unmodelled(0x32)) == 0x32;
    hide OpCode, ParseOperand, NextSrc, NumberAt, Make, SingleSource;
  }

  /** Neither is ATOMIC_ADD S4, S5, 0: the mnemonic is not in the table. */
  lemma AtomicRefused(syms: seq<Sym>, kpc: nat, line: Line)
    requires Mnemonic(line) in {"ATOMIC_ADD", "BFIND", "BAR_CLUSTER"}
    ensures ParseInsn(syms, kpc, line) == None
  {
    assert OpNamed("ATOMIC_ADD") == None && OpNamed("BFIND") == None && OpNamed("BAR_CLUSTER") == None;
    hide OpNamed, ParseOperands, ParsePred, ParseBranch;
  }

  /** The vector operations, and whether the last operand is a scalar register. */
  const VECTOR: seq<(string, nat)> := [
    ("VADD", 0x20), ("VMUL", 0x21), ("VDOT", 0x22), ("VMAD", 0x24), ("VBROADCAST", 0x28), ("VREDUCE", 0x29)]

  lemma VectorNamed(k: nat)
    requires k < |VECTOR|
    ensures OpNamed(VECTOR[k].0) == Some(Unmodelled(VECTOR[k].1)) && VECTOR[k].0 != "MOV" && 0x20 <= VECTOR[k].1 <= 0x29
    ensures VECTOR[k].0 == "VBROADCAST" <==> VECTOR[k].1 == 0x28
  {
  }

  lemma VectorEncodes(n: nat, pred: nat, d: nat, a: nat, b: nat)
    requires n < 256 && pred < 256 && d < 256 && a < 256 && b < 256
    ensures Encodes(Some(Make(Unmodelled(n), pred, d, a, b, 0)), n, pred, d, a, b, 0)
  {
    assert OpCode(Unmodelled(n)) == n;
    hide Encodes, OpCode, Make;
    EncodesFields(Unmodelled(n), pred, d, a, b, 0);
  }

  predicate Register(t: Tok, n: nat) { Scalar(t, n) || Vector(t, n) || Predicate(t, n) }

  /**
    VADD V1, V2, V3 is documented as well, but the destination of a vector operation has to be a
    scalar register, and the last operand a vector register, or a scalar one for VBROADCAST.
   */
  lemma VectorIff(syms: seq<Sym>, kpc: nat, k: nat, pr: seq<Tok>, pred: nat, td: Tok, ta: Tok, tb: Tok,
                  d: nat, a: nat, b: nat)
    requires k < |VECTOR| && Prefix(pr, pred) && Register(td, d) && Register(ta, a) && Register(tb, b)
    ensures var r := ParseInsn(syms, kpc, Form(VECTOR[k].0, pr, [td, Comma, ta, Comma, tb]));
            if Scalar(td, d) && (if VECTOR[k].0 == "VBROADCAST" then Scalar(tb, b) else Vector(tb, b))
            then Encodes(r, VECTOR[k].1, pred, d, a, b, 0) else r == None
  {
    var (mn, n) := VECTOR[k];
    VectorNamed(k);
    PredSmall(pr, pred);
    hide VECTOR, OpNamed, Prefix, Form, ParseInsn, Encodes, Written, Make;
    VectorParse(syms, kpc, mn, n, pr, pred, td, ta, tb, d, a, b);
    VectorEncodes(n, pred, d, a, b);
  }

  lemma VectorParse(syms: seq<Sym>, kpc: nat, mn: string, n: nat, pr: seq<Tok>, pred: nat, td: Tok, ta: Tok, tb: Tok,
                    d: nat, a: nat, b: nat)
    requires OpNamed(mn) == Some(Unmodelled(n)) && mn != "MOV" && 0x20 <= n <= 0x29
    requires Prefix(pr, pred) && Register(td, d) && Register(ta, a) && Register(tb, b)
    ensures ParseInsn(syms, kpc, Form(mn, pr, [td, Comma, ta, Comma, tb]))
            == if Scalar(td, d) && (if n == 0x28 then Scalar(tb, b) else Vector(tb, b))
               then Some(Make(Unmodelled(n), pred, d, a, b, 0)) else None
  {
    var ops, i := [td, Comma, ta, Comma, tb], 1 + |pr|;
    var line := Form(mn, pr, ops);
    assert td.Id? && tb.Id?;
    hide ParseOperands, OpNamed, ParseOperand, Prefix, Form, ParseInsn, NextSrc, Make, Register, Scalar, Vector;
    Ordinary(syms, kpc, mn, pr, pred, ops, Unmodelled(n));
    Places(line, i, ops);
    OperandOf(line, i, d);
    OperandOf(line, i + 2, a);
    OperandOf(line, i + 4, b);
    VectorOperands(line, i, mn, n, pred, ParseOperand(line, i).value, ParseOperand(line, i + 2).value,
                   ParseOperand(line, i + 4).value);
  }

  lemma OperandOf(line: Line, i: nat, n: nat)
    requires i < |line| && Register(line[i], n)
    ensures ParseOperand(line, i).Some? && ParseOperand(line, i).value.num == n < 256
    ensures ParseOperand(line, i).value.cls == S <==> Scalar(line[i], n)
    ensures ParseOperand(line, i).value.cls == V <==> Vector(line[i], n)
  {
    hide ParseOperand, Written;
    OperandIs(line, i, n);
  }

  lemma VectorOperands(line: Line, i: nat, mn: string, n: nat, pred: nat, d: Operand, a: Operand, b: Operand)
    requires 0x20 <= n <= 0x29 && mn != "MOV"
    requires i + 5 == |line| && NextSrc(line, i) == i + 2 && NextSrc(line, i + 2) == i + 4 && !line[i + 4].Num?
    requires ParseOperand(line, i) == Some(d) && ParseOperand(line, i + 2) == Some(a) && ParseOperand(line, i + 4) == Some(b)
    ensures ParseOperands(line, i, mn, Unmodelled(n), pred)
            == if d.cls == S && b.cls == (if n == 0x28 then S else V) then Some(Make(Unmodelled(n), pred, d.num, a.num, b.num, 0))
               else None
  {
    assert OpCode(Unmodelled(n)) == n;
    hide NextSrc, ParseOperand, OpCode, Make;
  }
}
