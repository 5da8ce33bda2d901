/** The BradVector instruction word: eight byte fields, most significant first. */
module BradVector {
  import opened Bits

  type Code = w: int | 0 <= w < TWO_64

  datatype Op =
    | ADD | ADDi | SUB | MUL | MAD | DIV | SQRT | RSQRT | MIN | MAX | ABS | NEG | CMP | SEL
    | IADD | ISUB | IMUL | IDIV | IMAD | POPC | CLZ | BFIND | SHL | SHR | AND | OR | XOR | NOT
    | LOAD | STORE | ATOMIC_ADD
    | BR | BR_COND | CALL | RET | BAR | BAR_CLUSTER | EXIT | TRAP
    | RCP | SIN | COS | EXP2 | LOG2 | LANE_ID | WARP_SZ | CLOCK
      // vector, gather and random-number operations, which this model does not execute
    | Unmodelled(code: nat)
      // every other code traps
    | Undefined(code: nat)

  function OpCode(op: Op): nat {
    match op
    case ADD => 0x00 case ADDi => 0x01 case SUB => 0x02 case MUL => 0x03 case MAD => 0x04
    case DIV => 0x05 case SQRT => 0x06 case RSQRT => 0x07 case MIN => 0x08 case MAX => 0x09
    case ABS => 0x0A case NEG => 0x0B case CMP => 0x0C case SEL => 0x0D
    case IADD => 0x10 case ISUB => 0x11 case IMUL => 0x12 case IDIV => 0x13 case IMAD => 0x14
    case POPC => 0x15 case CLZ => 0x16 case BFIND => 0x17 case SHL => 0x18 case SHR => 0x19
    case AND => 0x1A case OR => 0x1B case XOR => 0x1C case NOT => 0x1D
    case LOAD => 0x30 case STORE => 0x34 case ATOMIC_ADD => 0x38
    case BR => 0x40 case BR_COND => 0x41 case CALL => 0x42 case RET => 0x43 case BAR => 0x44
    case BAR_CLUSTER => 0x45 case EXIT => 0x46 case TRAP => 0x47
    case RCP => 0xF0 case SIN => 0xF1 case COS => 0xF2 case EXP2 => 0xF3 case LOG2 => 0xF4
    case LANE_ID => 0xF6 case WARP_SZ => 0xF7 case CLOCK => 0xF8
    case Unmodelled(n) => n
    case Undefined(n) => n
  }

  /** VADD, VMUL, VDOT, VMAD, VBROADCAST, VREDUCE, LOADV, STOREV and RAND. */
  const UNMODELLED := {0x20, 0x21, 0x22, 0x24, 0x28, 0x29, 0x32, 0x36, 0xF5}

  function OpOf(n: nat): Op {
    match n
    case 0x00 => ADD case 0x01 => ADDi case 0x02 => SUB case 0x03 => MUL case 0x04 => MAD
    case 0x05 => DIV case 0x06 => SQRT case 0x07 => RSQRT case 0x08 => MIN case 0x09 => MAX
    case 0x0A => ABS case 0x0B => NEG case 0x0C => CMP case 0x0D => SEL
    case 0x10 => IADD case 0x11 => ISUB case 0x12 => IMUL case 0x13 => IDIV case 0x14 => IMAD
    case 0x15 => POPC case 0x16 => CLZ case 0x17 => BFIND case 0x18 => SHL case 0x19 => SHR
    case 0x1A => AND case 0x1B => OR case 0x1C => XOR case 0x1D => NOT
    case 0x30 => LOAD case 0x34 => STORE case 0x38 => ATOMIC_ADD
    case 0x40 => BR case 0x41 => BR_COND case 0x42 => CALL case 0x43 => RET case 0x44 => BAR
    case 0x45 => BAR_CLUSTER case 0x46 => EXIT case 0x47 => TRAP
    case 0xF0 => RCP case 0xF1 => SIN case 0xF2 => COS case 0xF3 => EXP2 case 0xF4 => LOG2
    case 0xF6 => LANE_ID case 0xF7 => WARP_SZ case 0xF8 => CLOCK
    case _ => if n in UNMODELLED then Unmodelled(n) else Undefined(n)
  }

  /** A decoded instruction; pred is 0 for none and i + 1 for predicate register i. */
  datatype Insn = Insn(op: Op, pred: nat, dst: nat, src1: nat, src2: nat, imm: int, flags: nat, mod: nat) {
    predicate Encodable() {
      && OpCode(op) < 256 && OpOf(OpCode(op)) == op
      && pred < 256 && dst < 256 && src1 < 256 && src2 < 256 && -128 <= imm < 128 && flags < 256 && mod < 256
    }
  }

  /** One more byte at the low end. */
  function Push(w: nat, b: nat): nat { w * 256 + b }

  /** The eight bytes, most significant first, read as one word. */
  function Pack(b0: nat, b1: nat, b2: nat, b3: nat, b4: nat, b5: nat, b6: nat, b7: nat): nat {
    Push(Push(Push(Push(Push(Push(Push(b0, b1), b2), b3), b4), b5), b6), b7)
  }

  function ByteOf(imm: int): nat { imm % 256 }

  function SignExtend8(b: nat): int { if b < 128 then b else b - 256 }

  function Encode(i: Insn): (w: nat)
  {
    Pack(OpCode(i.op) % 256, i.pred % 256, i.dst % 256, i.src1 % 256, i.src2 % 256, ByteOf(i.imm),
         i.flags % 256, i.mod % 256)
  }

  /** Field k of a word, counted from the low end. */
  function Field(w: nat, k: nat): nat
  {
    if k == 0 then w % 256 else Field(w / 256, k - 1)
  }

  function Decode(w: nat): Insn {
    Insn(OpOf(Field(w, 7)), Field(w, 6), Field(w, 5), Field(w, 4), Field(w, 3), SignExtend8(Field(w, 2)),
         Field(w, 1), Field(w, 0))
  }

  lemma FieldOfPush(w: nat, b: nat, k: nat)
    requires b < 256
    ensures Field(Push(w, b), k) == if k == 0 then b else Field(w, k - 1)
  {
    assert Push(w, b) / 256 == w;
  }

  lemma FieldsOfPack(b0: nat, b1: nat, b2: nat, b3: nat, b4: nat, b5: nat, b6: nat, b7: nat)
    requires b0 < 256 && b1 < 256 && b2 < 256 && b3 < 256 && b4 < 256 && b5 < 256 && b6 < 256 && b7 < 256
    ensures var w := Pack(b0, b1, b2, b3, b4, b5, b6, b7);
            && w < TWO_64
            && Field(w, 7) == b0 && Field(w, 6) == b1 && Field(w, 5) == b2 && Field(w, 4) == b3
            && Field(w, 3) == b4 && Field(w, 2) == b5 && Field(w, 1) == b6 && Field(w, 0) == b7
  {
    hide Field, Push;
    var w1 := Push(b0, b1);
    var w2, w3 := Push(w1, b2), Push(Push(w1, b2), b3);
    var w4, w5 := Push(w3, b4), Push(Push(w3, b4), b5);
    var w6, w7 := Push(w5, b6), Push(Push(w5, b6), b7);
    FieldsOf7(w6, b7);
    FieldsOf7(w5, b6);
    FieldsOf7(w4, b5);
    FieldsOf7(w3, b4);
    FieldsOf7(w2, b3);
    FieldsOf7(w1, b2);
    FieldsOf7(b0, b1);
    FieldOfSmall(b0);
    PushBound(b0, b1, 256);
    PushBound(w1, b2, 0x1_0000);
    PushBound(w2, b3, 0x100_0000);
    PushBound(w3, b4, 0x1_0000_0000);
    PushBound(w4, b5, 0x100_0000_0000);
    PushBound(w5, b6, 0x1_0000_0000_0000);
    PushBound(w6, b7, 0x100_0000_0000_0000);
  }

  lemma PushBound(w: nat, b: nat, limit: nat)
    requires w < limit && b < 256
    ensures Push(w, b) < 256 * limit
  {
  }

  lemma FieldOfSmall(b: nat)
    requires b < 256
    ensures Field(b, 0) == b
  {
  }

  lemma FieldsOf7(w: nat, b: nat)
    requires b < 256
    ensures var v := Push(w, b);
            && Field(v, 0) == b && Field(v, 1) == Field(w, 0) && Field(v, 2) == Field(w, 1)
            && Field(v, 3) == Field(w, 2) && Field(v, 4) == Field(w, 3) && Field(v, 5) == Field(w, 4)
            && Field(v, 6) == Field(w, 5) && Field(v, 7) == Field(w, 6)
  {
    hide Field, Push;
    FieldOfPush(w, b, 0);
    FieldOfPush(w, b, 1);
    FieldOfPush(w, b, 2);
    FieldOfPush(w, b, 3);
    FieldOfPush(w, b, 4);
    FieldOfPush(w, b, 5);
    FieldOfPush(w, b, 6);
    FieldOfPush(w, b, 7);
  }

  /** Decoding an encoded instruction gives it back. */
  lemma DecodeEncode(i: Insn)
    requires i.Encodable()
    ensures Encode(i) < TWO_64 && Decode(Encode(i)) == i
  {
    hide Field, Pack, OpOf, OpCode;
    FieldsOfPack(OpCode(i.op), i.pred, i.dst, i.src1, i.src2, ByteOf(i.imm), i.flags, i.mod);
  }

  /** The encoded word; every field is cut to its byte. */
  function WordOf(i: Insn): Code {
    FieldsOfPack(OpCode(i.op) % 256, i.pred % 256, i.dst % 256, i.src1 % 256, i.src2 % 256, ByteOf(i.imm),
                 i.flags % 256, i.mod % 256);
    Encode(i)
  }

  function CodeWords(prog: seq<Insn>): (r: seq<Code>)
    ensures |r| == |prog| && forall k :: 0 <= k < |r| ==> r[k] == WordOf(prog[k])
  {
    seq(|prog|, k requires 0 <= k < |prog| => WordOf(prog[k]))
  }

  lemma DecodeWord(i: Insn)
    requires i.Encodable()
    ensures Decode(WordOf(i)) == i
  {
    hide Decode, Insn.Encodable;
    DecodeEncode(i);
  }

  /** Every opcode byte is the code of the operation that it decodes to. */
  lemma OpCodes(n: nat)
    ensures OpCode(OpOf(n)) == n
  {
  }

  // ---------- The word as a number ----------

  /** The eight bytes of a word, from the operation in the highest to the modifier in the lowest. */
  function Weighted(code: nat, pred: nat, dst: nat, src1: nat, src2: nat, imm: nat, flags: nat, mod: nat): nat {
    code * 0x100_0000_0000_0000 + pred * 0x1_0000_0000_0000 + dst * 0x100_0000_0000 + src1 * 0x1_0000_0000
    + src2 * 0x100_0000 + imm * 0x1_0000 + flags * 0x100 + mod
  }

  lemma PackIs(b0: nat, b1: nat, b2: nat, b3: nat, b4: nat, b5: nat, b6: nat, b7: nat)
    ensures Pack(b0, b1, b2, b3, b4, b5, b6, b7) == Weighted(b0, b1, b2, b3, b4, b5, b6, b7)
  {
  }

  lemma SmallByte(b: nat)
    requires b < 256
    ensures b % 256 == b
  {
  }

  /** The encoded word, as a number. */
  lemma WordLayout(i: Insn)
    requires OpCode(i.op) < 256 && i.pred < 256 && i.dst < 256 && i.src1 < 256 && i.src2 < 256 && -128 <= i.imm < 128
    requires i.flags < 256 && i.mod < 256
    ensures WordOf(i) == Weighted(OpCode(i.op), i.pred, i.dst, i.src1, i.src2,
                                  if i.imm < 0 then i.imm + 256 else i.imm, i.flags, i.mod)
  {
    hide OpCode, Pack, Weighted;
    SmallByte(OpCode(i.op));
    assert ByteOf(i.imm) == if i.imm < 0 then i.imm + 256 else i.imm;
    PackIs(OpCode(i.op), i.pred, i.dst, i.src1, i.src2, ByteOf(i.imm), i.flags, i.mod);
  }

  /** The operations from number 0x00, 0x10, 0x40 and 0xF0 on. */
  const FLOATING: seq<Op> := [ADD, ADDi, SUB, MUL, MAD, DIV, SQRT, RSQRT, MIN, MAX, ABS, NEG, CMP, SEL]
  const INTEGERS: seq<Op> := [IADD, ISUB, IMUL, IDIV, IMAD, POPC, CLZ, BFIND, SHL, SHR, AND, OR, XOR, NOT]
  const CONTROL: seq<Op> := [BR, BR_COND, CALL, RET, BAR, BAR_CLUSTER, EXIT, TRAP]
  const SPECIAL: seq<Op> := [RCP, SIN, COS, EXP2, LOG2, Unmodelled(0xF5), LANE_ID, WARP_SZ, CLOCK]

  /** The operation numbers of the instruction set. */
  lemma OperationNumbers(k: nat)
    ensures k < |FLOATING| ==> OpOf(k) == FLOATING[k]
    ensures k < |INTEGERS| ==> OpOf(0x10 + k) == INTEGERS[k]
    ensures k < |CONTROL| ==> OpOf(0x40 + k) == CONTROL[k]
    ensures k < |SPECIAL| ==> OpOf(0xF0 + k) == SPECIAL[k]
  {
    hide OpOf;
    hide FLOATING, INTEGERS, CONTROL, SPECIAL;
    if k < |FLOATING| { FloatingNumbers(k); }
    IntegerNumbers(k);
    ControlNumbers(k);
    SpecialNumbers(k);
  }

  lemma FloatingNumbers(k: nat)
    requires k < |FLOATING|
    ensures OpOf(k) == FLOATING[k]
  {
  }

  lemma IntegerNumbers(k: nat)
    ensures k < |INTEGERS| ==> OpOf(0x10 + k) == INTEGERS[k]
  {
  }

  lemma ControlNumbers(k: nat)
    ensures k < |CONTROL| ==> OpOf(0x40 + k) == CONTROL[k]
  {
  }

  lemma SpecialNumbers(k: nat)
    ensures k < |SPECIAL| ==> OpOf(0xF0 + k) == SPECIAL[k]
  {
  }

  lemma MemoryNumbers()
    ensures OpOf(0x30) == LOAD && OpOf(0x34) == STORE && OpOf(0x38) == ATOMIC_ADD
  {
  }
}
