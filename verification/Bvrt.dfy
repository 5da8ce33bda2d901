/**
  The BVRT interpreter: one warp of lanes with a shared program counter, per-lane scalar and
  predicate registers and return stacks, and a flat memory. The number of lanes is a
  parameter, so that the 32-lane warp can be compared with a machine of one lane.
 */
module Bvrt {
  import opened Bits
  import opened BradVector

  const WARP_SIZE := 32
  const SCALAR_REGS := 256
  const PRED_REGS := 16
  const MAX_RET := 16
  const ARG_BASE := 16
  const NUM_ARGS := 16
  const THREAD_ID := 1

  /** The floating-point unit, on bit patterns. Nothing is assumed of it. */
  datatype Fpu = Fpu(binary: (Op, Word, Word) -> Word, mad: (Word, Word, Word) -> Word,
                     addImm: (Word, int) -> Word, unary: (Op, Word) -> Word)

  datatype Lane = Lane(s: seq<Word>, p: seq<Word>, ret: seq<Word>, retsp: nat) {
    predicate Valid() {
      |s| == SCALAR_REGS && |p| == PRED_REGS && |ret| == MAX_RET && retsp <= MAX_RET
    }
  }

  datatype Status = Ok | Trapped | Timeout | Halted | NotModelled

  datatype Device = Device(pc: Word, active: seq<bool>, lanes: seq<Lane>, cycles: Word, mem: seq<Byte>,
                           insns: nat, status: Status) {
    predicate Valid() {
      |active| == |lanes| > 0 && forall l :: 0 <= l < |lanes| ==> lanes[l].Valid()
    }

    predicate AnyActive() { exists l :: 0 <= l < |active| && active[l] }
  }

  datatype Stepped = Stepped(dev: Device, status: Status)

  // ---------- Registers ----------

  function GetS(w: Lane, r: nat): Word { if r < |w.s| then w.s[r] else 0 }

  /** Register 0 reads as zero and swallows writes. */
  function SetS(w: Lane, r: nat, v: Word): Lane {
    if 0 < r < |w.s| then w.(s := w.s[r := v]) else w
  }

  /** Predicates past the file are not part of this model: they read as 0 and swallow writes. */
  function GetP(w: Lane, r: nat): Word { if r < |w.p| then w.p[r] else 0 }

  function SetP(w: Lane, r: nat, v: Word): Lane {
    if r < |w.p| then w.(p := w.p[r := v]) else w
  }

  predicate PredOk(w: Lane, pred: nat) { pred == 0 || GetP(w, pred - 1) != 0 }

  predicate On(d: Device, insn: Insn, l: nat)
    requires d.Valid() && l < |d.lanes|
  {
    d.active[l] && PredOk(d.lanes[l], insn.pred)
  }

  // ---------- Arithmetic ----------

  function Compare(flags: nat, a: Word, b: Word): bool {
    match flags
    case 0 => a == b
    case 1 => a != b
    case 2 => a < b
    case 3 => a > b
    case 4 => a <= b
    case _ => a >= b
  }

  function PopCount(v: nat, n: nat): (r: nat)
    ensures r <= n
  {
    if n == 0 then 0 else v % 2 + PopCount(v / 2, n - 1)
  }

  /** The index of the highest one bit among the low n, or -1. */
  function HighBit(v: nat, n: nat): (r: int)
    ensures -1 <= r < n
  {
    if n == 0 then -1 else if v / Pow2(n - 1) % 2 == 1 then n - 1 else HighBit(v, n - 1)
  }

  predicate FloatBinary(op: Op) { op in {ADD, SUB, MUL, DIV, MIN, MAX} }

  predicate FloatUnary(op: Op) { op in {SQRT, RSQRT, RCP, SIN, COS, EXP2, LOG2, ABS, NEG} }

  predicate Integer(op: Op) {
    op in {IADD, ISUB, IMUL, IDIV, IMAD, POPC, CLZ, BFIND, SHL, SHR, AND, OR, XOR, NOT}
  }

  /** The operations that compute a scalar result in every enabled lane and cannot trap. */
  predicate Computes(op: Op) {
    FloatBinary(op) || FloatUnary(op) || Integer(op) || op in {ADDi, MAD, SEL, LANE_ID, WARP_SZ, CLOCK}
  }

  function IntegerResult(op: Op, a: Word, b: Word, c: Word): Word {
    match op
    case IADD => (a + b) % WORD
    case ISUB => (a - b) % WORD
    case IMUL => a * b % WORD
    case IDIV => if b == 0 then WORD - 1 else Quotient(a, b)
    case IMAD => (a * b + c) % WORD
    case POPC => PopCount(a, 32)
    case CLZ => 31 - HighBit(a, 32)
    case BFIND => HighBit(a, 32) % WORD
    case SHL => Shl(a, b % 32)
    case SHR => Shr(a, b % 32)
    case AND => Bits.And(a, b)
    case OR => Bits.Or(a, b)
    case XOR => Bits.Xor(a, b)
    case _ => Bits.Not(a)
  }

  function Quotient(a: Word, b: Word): Word
    requires b > 0
  {
    DivShrinks(a, b);
    a / b
  }

  function Result(F: Fpu, insn: Insn, w: Lane, l: nat, cycles: Word): Word {
    var a, b, c := GetS(w, insn.src1), GetS(w, insn.src2), GetS(w, insn.dst);
    if FloatBinary(insn.op) then (F.binary)(insn.op, a, b)
    else if FloatUnary(insn.op) then (F.unary)(insn.op, a)
    else if Integer(insn.op) then IntegerResult(insn.op, a, b, c)
    else if insn.op == ADDi then (F.addImm)(a, insn.imm)
    else if insn.op == MAD then (F.mad)(a, b, c)
    else if insn.op == SEL then if insn.pred != 0 && GetP(w, insn.pred - 1) != 0 then a else b
    else if insn.op == LANE_ID then l % WORD
    else if insn.op == WARP_SZ then WARP_SIZE
    else cycles
  }

  /** The new state of one enabled lane. */
  function ComputeLane(F: Fpu, insn: Insn, w: Lane, l: nat, cycles: Word): Lane {
    if insn.op == CMP
    then SetP(w, insn.dst, if Compare(insn.flags, GetS(w, insn.src1), GetS(w, insn.src2)) then 1 else 0)
    else SetS(w, insn.dst, Result(F, insn, w, l, cycles))
  }

  function ComputeLanes(F: Fpu, d: Device, insn: Insn): (r: seq<Lane>)
    requires d.Valid()
    ensures |r| == |d.lanes|
    ensures forall l :: 0 <= l < |r| ==>
              r[l] == (if On(d, insn, l) then ComputeLane(F, insn, d.lanes[l], l, d.cycles) else d.lanes[l])
  {
    seq(|d.lanes|, l requires 0 <= l < |d.lanes| =>
      if On(d, insn, l) then ComputeLane(F, insn, d.lanes[l], l, d.cycles) else d.lanes[l])
  }

  // ---------- Memory ----------

  /** The sign-extended base plus the immediate; the source adds them modulo 2^64. */
  function Address(insn: Insn, w: Lane): int {
    var a := GetS(w, insn.src1);
    (if a < 0x8000_0000 then a else a - WORD) + insn.imm
  }

  predicate OutOfBounds(mem: seq<Byte>, addr: int) {
    (addr + 4) % TWO_64 > |mem|
  }

  function Load32(mem: seq<Byte>, addr: int): Word { if addr < 0 then 0 else Read32(mem, addr) }

  function Store32(mem: seq<Byte>, addr: int, v: Word): (r: seq<Byte>)
    ensures |r| == |mem|
  {
    if addr < 0 then mem else Write32(mem, addr, v)
  }

  /** One memory access of one enabled lane. */
  function AccessLane(insn: Insn, w: Lane, mem: seq<Byte>): (Lane, seq<Byte>) {
    var addr := Address(insn, w);
    match insn.op
    case LOAD => (SetS(w, insn.dst, Load32(mem, addr)), mem)
    case STORE => (w, Store32(mem, addr, GetS(w, insn.dst)))
    case _ =>
      var was := Load32(mem, addr);
      (SetS(w, insn.dst, was), Store32(mem, addr, (was + GetS(w, insn.src2)) % WORD))
  }

  lemma AccessKeepsLane(insn: Insn, w: Lane, m: seq<Byte>)
    requires w.Valid()
    ensures AccessLane(insn, w, m).0.Valid()
  {
    hide Load32, Store32, Address;
  }

  /** Lanes access memory one after the other; the first out-of-bounds lane stops the loop. */
  function AccessFrom(d: Device, insn: Insn, l: nat): (r: (Device, bool))
    requires d.Valid() && l <= |d.lanes|
    ensures r.0.Valid() && |r.0.lanes| == |d.lanes|
    ensures r.0.pc == d.pc && r.0.cycles == d.cycles && r.0.insns == d.insns && r.0.active == d.active
    decreases |d.lanes| - l
  {
    if l == |d.lanes| then (d, false)
    else if !On(d, insn, l) then AccessFrom(d, insn, l + 1)
    else if OutOfBounds(d.mem, Address(insn, d.lanes[l])) then (d, true)
    else
      var (w, mem) := AccessLane(insn, d.lanes[l], d.mem);
      AccessFrom(d.(lanes := d.lanes[l := w], mem := mem), insn, l + 1)
  }

  // ---------- Control ----------

  function Trap(d: Device): Stepped { Stepped(d.(status := Trapped), Trapped) }

  function Target(pc: Word, imm: int): Word { (pc + 1 + imm) % WORD }

  /** Sequential flow: one past, and one more cycle. */
  function Advance(d: Device): Stepped {
    Stepped(d.(pc := (d.pc + 1) % WORD, cycles := (d.cycles + 1) % WORD), Ok)
  }

  predicate AnyOn(d: Device, insn: Insn)
    requires d.Valid()
  {
    exists l :: 0 <= l < |d.lanes| && On(d, insn, l)
  }

  /** Enabled lanes push the return address, in order, until one is full. */
  function PushFrom(d: Device, insn: Insn, l: nat): (r: (Device, bool))
    requires d.Valid() && l <= |d.lanes|
    ensures r.0.Valid() && |r.0.lanes| == |d.lanes| && r.0.pc == d.pc && r.0.insns == d.insns
    decreases |d.lanes| - l
  {
    if l == |d.lanes| then (d, false)
    else if !On(d, insn, l) then PushFrom(d, insn, l + 1)
    else
      var w := d.lanes[l];
      if w.retsp >= MAX_RET then (d, true)
      else
        var pushed := w.(ret := w.ret[w.retsp := (d.pc + 1) % WORD], retsp := w.retsp + 1);
        PushFrom(d.(lanes := d.lanes[l := pushed]), insn, l + 1)
  }

  /** Active lanes pop, in order, each setting the shared program counter. */
  function PopFrom(d: Device, l: nat): (r: (Device, bool))
    requires d.Valid() && l <= |d.lanes|
    ensures r.0.Valid() && |r.0.lanes| == |d.lanes| && r.0.insns == d.insns
    decreases |d.lanes| - l
  {
    if l == |d.lanes| then (d, false)
    else if !d.active[l] then PopFrom(d, l + 1)
    else
      var w := d.lanes[l];
      if w.retsp == 0 then (d, true)
      else
        var popped := w.(retsp := w.retsp - 1);
        PopFrom(d.(lanes := d.lanes[l := popped], pc := w.ret[w.retsp - 1]), l + 1)
  }

  function NoneActive(n: nat): seq<bool> { seq(n, _ => false) }

  // ---------- One instruction ----------

  function Execute(F: Fpu, d: Device, insn: Insn): (r: Stepped)
    requires d.Valid()
    ensures r.dev.Valid() && |r.dev.lanes| == |d.lanes| && r.dev.insns == d.insns
  {
    if Computes(insn.op) || insn.op == CMP then
      Advance(d.(lanes := ComputeLanes(F, d, insn)))
    else
      match insn.op
      case LOAD | STORE | ATOMIC_ADD =>
        var (e, oob) := AccessFrom(d, insn, 0);
        if oob then Trap(e) else Advance(e)
      case BR | BR_COND =>
        if AnyOn(d, insn) then Stepped(d.(pc := Target(d.pc, insn.imm)), Ok) else Advance(d)
      case CALL =>
        var (e, full) := PushFrom(d, insn, 0);
        if full then Trap(e) else Stepped(e.(pc := Target(d.pc, insn.imm)), Ok)
      case RET =>
        var (e, empty) := PopFrom(d, 0);
        if empty then Trap(e) else Stepped(e, Ok)
      case BAR | BAR_CLUSTER => Advance(d)
      case EXIT => Advance(d.(active := NoneActive(|d.active|)))
      case Unmodelled(_) => Stepped(d, NotModelled)
      case _ => Trap(d)
  }

  function Step(F: Fpu, code: seq<Code>, d: Device): (r: Stepped)
    requires d.Valid()
    ensures r.dev.Valid() && |r.dev.lanes| == |d.lanes|
    ensures r.status == Ok ==> r.dev.insns == d.insns + 1
  {
    if !d.AnyActive() then Stepped(d, Halted)
    else if d.pc >= 0x8000_0000 || d.pc >= |code| then Trap(d)
    else Execute(F, d.(insns := d.insns + 1), Decode(code[d.pc]))
  }

  /** bvrt_run: step until every lane has exited, a step fails, or the budget is spent. */
  function Run(F: Fpu, code: seq<Code>, d: Device, max: nat): (r: Stepped)
    requires d.Valid()
    ensures r.dev.Valid() && |r.dev.lanes| == |d.lanes|
    decreases max - d.insns
  {
    if !d.AnyActive() then Stepped(d, Halted)
    else if d.insns >= max then Stepped(d, Timeout)
    else
      var st := Step(F, code, d);
      if st.status != Ok then st else Run(F, code, st.dev, max)
  }

  // ---------- Launch ----------

  function LaunchLane(l: nat, args: seq<Word>): Lane {
    Lane(seq(SCALAR_REGS, r =>
           if r == THREAD_ID then l % WORD
           else if ARG_BASE <= r < ARG_BASE + NUM_ARGS && r - ARG_BASE < |args| then args[r - ARG_BASE]
           else 0),
         seq(PRED_REGS, _ => 0), seq(MAX_RET, _ => 0), 0)
  }

  /** A fresh launch at an entry point; memory is kept. */
  function Launch(n: nat, entry: Word, args: seq<Word>, mem: seq<Byte>): (d: Device)
    requires n > 0
    ensures d.Valid() && |d.lanes| == n
  {
    Device(entry, seq(n, _ => true), seq(n, l requires 0 <= l => LaunchLane(l, args)), 0, mem, 0, Ok)
  }
}
