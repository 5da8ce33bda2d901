/** The two-pass assembler, on lines of tokens. */
module Bradc {
  import opened Bits
  import opened BradVector
  import opened Bvbc

  const MAX_SYMBOLS := 1024

  datatype Tok = Id(text: string) | Num(v: int) | Comma | Colon | At | Dot

  type Line = seq<Tok>

  datatype Sym = Sym(name: string, addr: nat)

  // ---------- Lines ----------

  datatype Kind = Blank | Directive | Label | Instruction

  /** peek_line. */
  function KindOf(line: Line): (k: Kind)
    ensures k == Label ==> line != [] && line[0].Id?
    ensures k == Directive ==> |line| > 1
  {
    if line == [] then Blank
    else if line[0].Id? then if |line| > 1 && line[1] == Colon then Label else Instruction
    else if line[0] == Dot && |line| > 1 && line[1] in {Id("kernel"), Id("end")} then Directive
    else Instruction
  }

  /** b_find: the first symbol of that name, or none. */
  function Find(syms: seq<Sym>, name: string): Option<nat> {
    if syms == [] then None else if syms[0].name == name then Some(syms[0].addr) else Find(syms[1..], name)
  }

  // ---------- Pass 1 ----------

  datatype First = First(inKernel: bool, kpc: nat, syms: seq<Sym>)

  function Pass1Line(st: First, line: Line): First {
    match KindOf(line)
    case Blank => st
    case Directive => st.(inKernel := line[1] != Id("end"), kpc := 0)
    case Label =>
      if st.inKernel && Find(st.syms, line[0].text).None? && |st.syms| < MAX_SYMBOLS
      then st.(syms := st.syms + [Sym(line[0].text, st.kpc)])
      else st
    case Instruction => if st.inKernel then st.(kpc := st.kpc + 1) else st
  }

  /** The state before line n. */
  function Pass1(src: seq<Line>, n: nat): First
    requires n <= |src|
  {
    if n == 0 then First(false, 0, []) else Pass1Line(Pass1(src, n - 1), src[n - 1])
  }

  function Symbols(src: seq<Line>): seq<Sym> { Pass1(src, |src|).syms }

  // ---------- Operands ----------

  function DigitsValue(s: string): Option<nat> {
    if s == [] then Some(0)
    else
      var before := DigitsValue(s[..|s| - 1]);
      var c := s[|s| - 1];
      if before.Some? && '0' <= c <= '9' then Some(10 * before.value + (c as int - '0' as int)) else None
  }

  /** strtol in base 10, when it consumes the whole string; the empty string reads as 0. */
  function Decimal(s: string): Option<int> {
    if s != [] && (s[0] == '-' || s[0] == '+') then
      if |s| == 1 || DigitsValue(s[1..]).None? then None
      else
        var v: int := DigitsValue(s[1..]).value;
        Some(if s[0] == '-' then -v else v)
    else if DigitsValue(s).None? then None
    else Some(DigitsValue(s).value)
  }

  datatype Class = NoReg | S | V | P

  datatype Operand = Operand(cls: Class, num: int)

  function ClassOf(c: char): Class {
    if c == 'S' || c == 's' then S else if c == 'V' || c == 'v' then V else if c == 'P' || c == 'p' then P else NoReg
  }

  function Registers(cls: Class): nat {
    match cls
    case S => 256
    case V => 64
    case P => 16
    case NoReg => 0
  }

  /** parse_reg, for whichever class the first letter names. */
  function ParseReg(text: string): Option<Operand> {
    if text == [] then None
    else
      var cls := ClassOf(text[0]);
      var n := Decimal(text[1..]);
      if n.None? || n.value < 0 || n.value >= Registers(cls) then None else Some(Operand(cls, n.value))
  }

  /** parse_operand on the token at position i; past the line's end there is none. */
  function ParseOperand(line: Line, i: nat): Option<Operand> {
    if i >= |line| then None
    else match line[i]
         case Num(v) => Some(Operand(NoReg, v))
         case Id(text) => ParseReg(text)
         case _ => None
  }

  /** next_src: one token on, past at most one comma. */
  function NextSrc(line: Line, i: nat): nat {
    if i + 1 < |line| && line[i + 1] == Comma then i + 2 else i + 1
  }

  predicate NumberAt(line: Line, i: nat) { i < |line| && line[i].Num? }

  /** parse_pred: the predicate field, and the position of the first operand. */
  function ParsePred(line: Line): Option<(nat, nat)> {
    if |line| < 2 || line[1] != At then Some((0, 1))
    else if |line| < 3 || !line[2].Id? || line[2].text == [] || line[2].text[0] != 'P' then None
    else
      var p := Decimal(line[2].text[1..]);
      if p.None? || p.value < 0 || p.value >= 16 then None else Some((p.value + 1, NextSrc(line, 2)))
  }

  // ---------- Mnemonics ----------

  function OpNamed(name: string): Option<Op> {
    match name
    case "ADD" => Some(ADD) case "ADDi" => Some(ADDi) case "MOV" => Some(ADDi) case "SUB" => Some(SUB)
    case "MUL" => Some(MUL) case "MAD" => Some(MAD) case "DIV" => Some(DIV) case "SQRT" => Some(SQRT)
    case "RSQRT" => Some(RSQRT) case "RCP" => Some(RCP) case "SIN" => Some(SIN) case "COS" => Some(COS)
    case "EXP2" => Some(EXP2) case "LOG2" => Some(LOG2) case "MIN" => Some(MIN) case "MAX" => Some(MAX)
    case "ABS" => Some(ABS) case "NEG" => Some(NEG) case "SEL" => Some(SEL) case "CMP" => Some(CMP)
    case "IADD" => Some(IADD) case "ISUB" => Some(ISUB) case "IMUL" => Some(IMUL) case "IDIV" => Some(IDIV)
    case "IMAD" => Some(IMAD) case "POPC" => Some(POPC) case "CLZ" => Some(CLZ) case "SHL" => Some(SHL)
    case "SHR" => Some(SHR) case "AND" => Some(AND) case "OR" => Some(OR) case "XOR" => Some(XOR)
    case "NOT" => Some(NOT)
    case "VADD" => Some(Unmodelled(0x20)) case "VMUL" => Some(Unmodelled(0x21))
    case "VDOT" => Some(Unmodelled(0x22)) case "VMAD" => Some(Unmodelled(0x24))
    case "VBROADCAST" => Some(Unmodelled(0x28)) case "VREDUCE" => Some(Unmodelled(0x29))
    case "LOAD" => Some(LOAD) case "LOADV" => Some(Unmodelled(0x32))
    case "STORE" => Some(STORE) case "STOREV" => Some(Unmodelled(0x36))
    case "BR" => Some(BR) case "BR_COND" => Some(BR_COND) case "CALL" => Some(CALL) case "RET" => Some(RET)
    case "BAR" => Some(BAR) case "EXIT" => Some(EXIT) case "TRAP" => Some(TRAP)
    case "LANE_ID" => Some(LANE_ID) case "WARP_SZ" => Some(WARP_SZ) case "CLOCK" => Some(CLOCK)
    case _ => None
  }

  /** The mnemonic: the first token's text, which is empty unless it is an identifier. */
  function Mnemonic(line: Line): string { if line != [] && line[0].Id? then line[0].text else "" }

  predicate SingleSource(op: Op) {
    op in {ABS, NEG, NOT, POPC, CLZ, SQRT, RSQRT, RCP, SIN, COS, EXP2, LOG2}
  }

  // ---------- One instruction ----------

  function Cast8(v: int): nat { v % 256 }

  function Make(op: Op, pred: nat, dst: int, src1: int, src2: int, imm: int): Insn {
    Insn(op, pred, Cast8(dst), Cast8(src1), Cast8(src2), SignExtend8(Cast8(imm)), 0, 0)
  }

  /** b_branch: an offset, or a label relative to the next instruction. */
  function ParseBranch(syms: seq<Sym>, kpc: nat, line: Line, i: nat, op: Op, pred: nat): Option<Insn> {
    if i >= |line| then None
    else match line[i]
         case Num(v) => Some(Make(op, pred, 0, 0, 0, v))
         case Id(text) =>
           var addr := Find(syms, text);
           if addr.None? then None
           else
             var d := addr.value - (kpc + 1);
             if d < -128 || d > 127 then None else Some(Make(op, pred, 0, 0, 0, d))
         case _ => None
  }

  /** The operand forms of the remaining operations. */
  function ParseOperands(line: Line, i: nat, mn: string, op: Op, pred: nat): Option<Insn> {
    var code := OpCode(op);
    var isMem, isVec := 0x30 <= code <= 0x36, 0x20 <= code <= 0x29;
    var d := ParseOperand(line, i);
    var i1 := NextSrc(line, i);
    var a1 := ParseOperand(line, i1);
    var i2 := NextSrc(line, i1);
    if d.None? || d.value.cls != (if op == CMP then P else if code == 0x32 then V else S) || a1.None? then None
    else if op == CMP then
      if NumberAt(line, i2) then Some(Make(op, pred, d.value.num, a1.value.num, 0, 0))
      else
        var b := ParseOperand(line, i2);
        if b.None? || b.value.cls != S then None
        else Some(Make(op, pred, d.value.num, a1.value.num, b.value.num, 0))
    else if isMem then
      var isStore := code == 0x34 || code == 0x36;
      var base, val := if isStore then d.value else a1.value, if isStore then a1.value else d.value;
      if base.cls != S || val.cls != (if code == 0x36 then V else S) || !NumberAt(line, i2) then None
      else Some(Make(op, pred, val.num, base.num, 0, line[i2].v))
    else if mn == "MOV" then Some(Make(ADDi, pred, d.value.num, a1.value.num, 0, 0))
    else if op == ADDi then
      if NumberAt(line, i2) then Some(Make(op, pred, d.value.num, a1.value.num, 0, line[i2].v)) else None
    else if SingleSource(op) then Some(Make(op, pred, d.value.num, a1.value.num, 0, 0))
    else
      var a2 := ParseOperand(line, i2);
      if NumberAt(line, i2) || a2.None? || a2.value.cls != (if isVec && code != 0x28 then V else S) then None
      else Some(Make(op, pred, d.value.num, a1.value.num, a2.value.num, 0))
  }

  /** The instruction on a line, if it is well formed. */
  function ParseInsn(syms: seq<Sym>, kpc: nat, line: Line): Option<Insn> {
    var pp := ParsePred(line);
    var op := OpNamed(Mnemonic(line));
    if pp.None? || op.None? then None
    else
      var (pred, i) := pp.value;
      if op.value in {RET, EXIT, BAR, TRAP} then Some(Make(op.value, pred, 0, 0, 0, 0))
      else if op.value in {BR, BR_COND, CALL} then ParseBranch(syms, kpc, line, i, op.value, pred)
      else if op.value in {LANE_ID, WARP_SZ, CLOCK} then
        var d := ParseOperand(line, i);
        if d.None? || d.value.cls != S then None else Some(Make(op.value, pred, d.value.num, 0, 0, 0))
      else ParseOperands(line, i, Mnemonic(line), op.value, pred)
  }

  // ---------- Pass 2 ----------

  datatype Second = Second(inKernel: bool, kpc: nat, img: Image)

  function Bytes(text: string): (r: seq<Byte>)
    ensures |r| == |text|
  {
    seq(|text|, i requires 0 <= i < |text| => text[i] as int % 256)
  }

  function Pass2Directive(st: Second, line: Line): Option<Second>
    requires KindOf(line) == Directive
  {
    if line[1] == Id("end") then
      if st.inKernel then Some(st.(inKernel := false, kpc := 0)) else None
    else
      var i := NextSrc(line, 1);
      if st.inKernel || i >= |line| || !line[i].Id? then None
      else
        var img := AddKernel(st.img, Bytes(line[i].text), |st.img.insns| % WORD, 0);
        if img.None? then None else Some(Second(true, 0, img.value))
  }

  function Pass2Insn(syms: seq<Sym>, st: Second, line: Line): Option<Second> {
    var insn := ParseInsn(syms, st.kpc, line);
    if insn.None? || !st.inKernel then None
    else
      var img := Emit(st.img, WordOf(insn.value));
      if img.None? then None else Some(st.(kpc := st.kpc + 1, img := img.value))
  }

  function Pass2Line(syms: seq<Sym>, st: Second, line: Line): Option<Second> {
    match KindOf(line)
    case Blank => Some(st)
    case Directive => Pass2Directive(st, line)
    case Label => Some(st)
    case Instruction => Pass2Insn(syms, st, line)
  }

  /** The state before line n, unless an earlier line failed. */
  function Pass2(src: seq<Line>, syms: seq<Sym>, n: nat): Option<Second>
    requires n <= |src|
  {
    if n == 0 then Some(Second(false, 0, EMPTY))
    else
      var st := Pass2(src, syms, n - 1);
      if st.None? then None else Pass2Line(syms, st.value, src[n - 1])
  }

  /** bradc_assemble. */
  function Assemble(src: seq<Line>): Option<Image> {
    var st := Pass2(src, Symbols(src), |src|);
    if st.None? || st.value.inKernel then None else Some(st.value.img)
  }
}
