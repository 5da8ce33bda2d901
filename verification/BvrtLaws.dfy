/** What each instruction of the interpreter does to each lane, operation by operation. */
module BvrtLaws {
  import opened Bits
  import opened BitLaws
  import opened BradVector
  import opened Bvrt
  import opened BvrtInteger

  // ---------- Operations that compute a register ----------

  /** Whether a lane takes part: active, and its predicate register, if the instruction names one, is not 0. */
  predicate Enabled(d: Device, i: Insn, l: nat)
    requires d.Valid() && l < |d.lanes|
  {
    d.active[l] && (i.pred == 0 || (i.pred <= 16 && d.lanes[l].p[i.pred - 1] != 0))
  }

  /**
    What v is for operands a and b and the old destination c: arithmetic modulo 2^32, counts of
    one bits and leading zeros, the highest one bit, and binary digit k where digits are moved or
    combined.
   */
  ghost predicate IntegerValue(op: Op, a: Word, b: Word, c: Word, v: Word, k: nat) {
    match op
    case IADD => v == (a + b) % 0x1_0000_0000
    case ISUB => v == (a - b) % 0x1_0000_0000
    case IMUL => v == a * b % 0x1_0000_0000
    case IMAD => v == (a * b + c) % 0x1_0000_0000
    case IDIV => if b == 0 then v == 0xFFFF_FFFF else v * b <= a < v * b + b
    case POPC => v == Ones(a, 32)
    case CLZ => v <= 32 && if v == 32 then a == 0 else Pow2(31 - v) <= a < Pow2(32 - v)
    case BFIND => if a == 0 then v == 0xFFFF_FFFF else v < 32 && Pow2(v) <= a < Pow2(v + 1)
    case SHL => DigitAt(v, k) == if k < b % 32 then 0 else DigitAt(a, k - b % 32)
    case SHR => DigitAt(v, k) == if k + b % 32 < 32 then DigitAt(a, k + b % 32) else 0
    case AND => DigitAt(v, k) == 1 <==> DigitAt(a, k) == 1 && DigitAt(b, k) == 1
    case OR => DigitAt(v, k) == 1 <==> DigitAt(a, k) == 1 || DigitAt(b, k) == 1
    case XOR => DigitAt(v, k) == 1 <==> DigitAt(a, k) != DigitAt(b, k)
    case NOT => DigitAt(v, k) == 1 <==> DigitAt(a, k) == 0
    case _ => false
  }

  /** How many of the low n digits are 1. */
  function Ones(v: nat, n: nat): nat { if n == 0 then 0 else Ones(v, n - 1) + DigitAt(v, n - 1) }

  lemma {:induction false} OnesOfHalf(v: nat, n: nat)
    requires n > 0
    ensures Ones(v, n) == v % 2 + Ones(v / 2, n - 1)
  {
    if n > 1 { OnesOfHalf(v, n - 1); }
  }

  lemma {:induction false} CountOnes(v: nat, n: nat)
    ensures PopCount(v, n) == Ones(v, n)
  {
    if n > 0 {
      OnesOfHalf(v, n);
      CountOnes(v / 2, n - 1);
    }
  }

  lemma Divides(a: Word, b: Word)
    requires b > 0
    ensures Quotient(a, b) * b <= a < Quotient(a, b) * b + b
  {
  }

  lemma IntegerIs(op: Op, a: Word, b: Word, c: Word, k: nat)
    requires op in {IADD, ISUB, IMUL, IMAD, IDIV, POPC, CLZ, BFIND, SHL, SHR, AND, OR, XOR, NOT} && k < 32
    ensures IntegerValue(op, a, b, c, IntegerResult(op, a, b, c), k)
  {
    hide Bits.And, Bits.Or, Bits.Xor, Bits.Not, Shl, Shr, DigitAt, PopCount, HighBit, Quotient, Ones, Pow2;
    if op in {AND, OR, XOR} {
      LogicAt(a, b, k);
    } else if op == NOT {
      NotAt(a, k);
    } else if op in {SHL, SHR} {
      ShiftAt(a, b % 32, k);
    } else if op in {CLZ, BFIND} {
      LeadingZeros(a, b, c);
    } else if op == POPC {
      CountOnes(a, 32);
    } else if op == IDIV && b > 0 {
      Divides(a, b);
    }
  }

  /** What an operation computes in lane l, for any floating-point unit. */
  ghost predicate ValueIs(F: Fpu, i: Insn, w: Lane, l: nat, cycles: Word, v: Word, k: nat)
    requires w.Valid() && i.dst < 256 && i.src1 < 256 && i.src2 < 256
  {
    var a, b, c := w.s[i.src1], w.s[i.src2], w.s[i.dst];
    if i.op in {ADD, SUB, MUL, DIV, MIN, MAX} then v == (F.binary)(i.op, a, b)
    else if i.op in {SQRT, RSQRT, RCP, SIN, COS, EXP2, LOG2, ABS, NEG} then v == (F.unary)(i.op, a)
    else if i.op == ADDi then v == (F.addImm)(a, i.imm)
    else if i.op == MAD then v == (F.mad)(a, b, c)
    else if i.op == SEL then v == if i.pred > 0 then a else b
    else if i.op == LANE_ID then v == l % 0x1_0000_0000
    else if i.op == WARP_SZ then v == 32
    else if i.op == CLOCK then v == cycles
    else IntegerValue(i.op, a, b, c, v, k)
  }

  const COMPUTING := {ADD, ADDi, SUB, MUL, MAD, DIV, SQRT, RSQRT, RCP, SIN, COS, EXP2, LOG2, MIN, MAX, ABS, NEG, SEL,
                      IADD, ISUB, IMUL, IDIV, IMAD, POPC, CLZ, BFIND, SHL, SHR, AND, OR, XOR, NOT,
                      LANE_ID, WARP_SZ, CLOCK}

  lemma ResultIs(F: Fpu, i: Insn, w: Lane, l: nat, cycles: Word, k: nat)
    requires w.Valid() && i.op in COMPUTING && i.dst < 256 && i.src1 < 256 && i.src2 < 256 && k < 32
    requires i.pred == 0 || (i.pred <= 16 && w.p[i.pred - 1] != 0)
    ensures Computes(i.op) && ValueIs(F, i, w, l, cycles, Result(F, i, w, l, cycles), k)
  {
    hide IntegerValue, IntegerResult;
    if Integer(i.op) { IntegerIs(i.op, w.s[i.src1], w.s[i.src2], w.s[i.dst], k); }
  }

  /** Nothing but the lanes' registers, the program counter and the cycle count changes. */
  ghost predicate StepsOn(d: Device, e: Device) {
    && e.mem == d.mem && e.active == d.active && e.insns == d.insns && e.status == d.status
    && |e.lanes| == |d.lanes| && e.pc == (d.pc + 1) % 0x1_0000_0000 && e.cycles == (d.cycles + 1) % 0x1_0000_0000
  }

  /**
    A computing instruction writes its value to the destination of every enabled lane, unless
    that is register 0; nothing else in the lane and no other lane changes.
   */
  lemma ComputesInLane(F: Fpu, d: Device, i: Insn, l: nat, k: nat)
    requires d.Valid() && l < |d.lanes| && i.op in COMPUTING && i.dst < 256 && i.src1 < 256 && i.src2 < 256 && k < 32
    ensures var r := Execute(F, d, i);
            && r.status == Ok && StepsOn(d, r.dev)
            && var w, was := r.dev.lanes[l], d.lanes[l];
               && w.Valid() && w.p == was.p && w.ret == was.ret && w.retsp == was.retsp
               && (forall q :: 0 <= q < 256 && q != i.dst ==> w.s[q] == was.s[q])
               && if i.dst > 0 && Enabled(d, i, l) then ValueIs(F, i, was, l, d.cycles, w.s[i.dst], k)
                  else w.s[i.dst] == was.s[i.dst]
  {
    hide Result, ValueIs, COMPUTING;
    InComputing(i.op);
    if Enabled(d, i, l) { ResultIs(F, i, d.lanes[l], l, d.cycles, k); }
  }

  lemma NotComputing(op: Op)
    requires op in {LOAD, STORE, ATOMIC_ADD, BR, BR_COND, CALL, RET, BAR, BAR_CLUSTER, EXIT, TRAP} || op.Undefined?
    ensures !Computes(op) && op != CMP
  {
  }

  lemma InComputing(op: Op)
    requires op in COMPUTING
    ensures Computes(op) && op != CMP
  {
  }

  /** A comparison writes 1 or 0 to its predicate register in every enabled lane; the words are unsigned. */
  lemma ComparesInLane(F: Fpu, d: Device, i: Insn, l: nat)
    requires d.Valid() && l < |d.lanes| && i.op == CMP && i.dst < 16 && i.src1 < 256 && i.src2 < 256
    ensures var r := Execute(F, d, i);
            && r.status == Ok && StepsOn(d, r.dev)
            && var w, was := r.dev.lanes[l], d.lanes[l];
               var a, b := was.s[i.src1], was.s[i.src2];
               var holds := if i.flags == 0 then a == b else if i.flags == 1 then a != b else if i.flags == 2 then a < b
                            else if i.flags == 3 then a > b else if i.flags == 4 then a <= b else a >= b;
               w == was.(p := if Enabled(d, i, l) then was.p[i.dst := if holds then 1 else 0] else was.p)
  {
  }

  // ---------- Memory ----------

  /** The base register as a signed number, and the offset. */
  function PlaceOf(i: Insn, w: Lane): int
    requires w.Valid() && i.src1 < 256
  {
    (if w.s[i.src1] < 0x8000_0000 then w.s[i.src1] else w.s[i.src1] - 0x1_0000_0000) + i.imm
  }

  lemma AddressIs(i: Insn, w: Lane)
    requires w.Valid() && i.src1 < 256
    ensures Address(i, w) == PlaceOf(i, w)
  {
  }

  /**
    One lane's access to a word in memory: a load copies the word into the destination, a store
    the destination into the word, and an atomic addition does both, adding the second source.
   */
  lemma AccessOfLane(i: Insn, w: Lane, mem: seq<Byte>, at: int)
    requires w.Valid() && i.op in {LOAD, STORE, ATOMIC_ADD} && 0 < i.dst < 256 && i.src1 < 256 && i.src2 < 256
    requires at == PlaceOf(i, w) && 0 <= at && at + 4 <= |mem| < 0x1_0000_0000_0000_0000
    ensures !OutOfBounds(mem, Address(i, w))
    ensures var (v, after) := AccessLane(i, w, mem);
            && |after| == |mem| && (forall k :: 0 <= k < |mem| && !(at <= k < at + 4) ==> after[k] == mem[k])
            && (i.op == LOAD ==> v == w.(s := w.s[i.dst := FourBytes(mem, at)]) && after == mem)
            && (i.op == STORE ==> v == w && FourBytes(after, at) == w.s[i.dst])
            && (i.op == ATOMIC_ADD ==> v == w.(s := w.s[i.dst := FourBytes(mem, at)])
                                       && FourBytes(after, at) == (FourBytes(mem, at) + w.s[i.src2]) % 0x1_0000_0000)
  {
    hide Read32, Write32, FourBytes, Address, PlaceOf;
    LittleEndian(mem, at, w.s[i.dst]);
    LittleEndian(mem, at, (Read32(mem, at) + w.s[i.src2]) % WORD);
    AddressIs(i, w);
  }

  /** An enabled lane whose word lies outside memory, as the test sees it. */
  predicate Outside(d: Device, i: Insn, k: nat)
    requires d.Valid() && k < |d.lanes| && i.src1 < 256
  {
    Enabled(d, i, k) && (PlaceOf(i, d.lanes[k]) + 4) % 0x1_0000_0000_0000_0000 > |d.mem|
  }

  lemma OutsideIs(d: Device, i: Insn, k: nat)
    requires d.Valid() && k < |d.lanes| && i.src1 < 256
    ensures Outside(d, i, k) <==> On(d, i, k) && OutOfBounds(d.mem, Address(i, d.lanes[k]))
  {
    EnabledIsOn(d, i);
    AddressIs(i, d.lanes[k]);
    hide On, Enabled, PlaceOf, Address;
  }

  lemma SameOutside(d: Device, e: Device, i: Insn, l: nat)
    requires d.Valid() && e.Valid() && |d.lanes| == |e.lanes| && d.active == e.active && l < |d.lanes| && i.src1 < 256
    requires |d.mem| == |e.mem| && forall k :: 0 <= k < |d.lanes| && k != l ==> d.lanes[k] == e.lanes[k]
    ensures forall k :: l < k < |d.lanes| ==> (Outside(d, i, k) <==> Outside(e, i, k))
  {
    SameEnabled(d, e, i, l);
    hide Enabled, PlaceOf;
  }

  /** A memory instruction traps exactly when there is such a lane. */
  lemma {:induction false} AccessTrapsIff(d: Device, i: Insn, l: nat)
    requires d.Valid() && l <= |d.lanes| && i.op in {LOAD, STORE, ATOMIC_ADD} && i.src1 < 256
    ensures AccessFrom(d, i, l).1 <==> exists k :: l <= k < |d.lanes| && Outside(d, i, k)
    decreases |d.lanes| - l
  {
    hide On, Outside, AccessLane, Address, OutOfBounds;
    if l < |d.lanes| {
      OutsideIs(d, i, l);
      if !On(d, i, l) {
        AccessTrapsIff(d, i, l + 1);
      } else if !OutOfBounds(d.mem, Address(i, d.lanes[l])) {
        var (w, mem) := AccessLane(i, d.lanes[l], d.mem);
        AccessKeepsLane(i, d.lanes[l], d.mem);
        AccessKeepsSize(i, d.lanes[l], d.mem);
        var e := d.(lanes := d.lanes[l := w], mem := mem);
        AccessTrapsIff(e, i, l + 1);
        SameOutside(d, e, i, l);
      }
    }
  }

  lemma MemoryStatus(F: Fpu, d: Device, i: Insn)
    requires d.Valid() && i.op in {LOAD, STORE, ATOMIC_ADD} && i.src1 < 256
    ensures var r := Execute(F, d, i);
            if exists k :: 0 <= k < |d.lanes| && Outside(d, i, k) then r.status == Trapped && r.dev.pc == d.pc
            else r.status == Ok && r.dev.pc == (d.pc + 1) % 0x1_0000_0000 && r.dev.active == d.active
  {
    AccessTrapsIff(d, i, 0);
    NotComputing(i.op);
    hide Outside, Computes, AccessFrom;
  }

  lemma AccessKeepsSize(i: Insn, w: Lane, mem: seq<Byte>)
    ensures |AccessLane(i, w, mem).1| == |mem|
  {
  }

  // ---------- Control ----------

  /** Branches are taken by the whole warp when any lane is enabled, to pc + 1 + imm. */
  lemma BranchesWarp(F: Fpu, d: Device, i: Insn)
    requires d.Valid() && i.op in {BR, BR_COND}
    ensures var r := Execute(F, d, i);
            if exists l :: 0 <= l < |d.lanes| && Enabled(d, i, l)
            then r == Stepped(d.(pc := (d.pc + 1 + i.imm) % 0x1_0000_0000), Ok)
            else r.status == Ok && StepsOn(d, r.dev) && r.dev.lanes == d.lanes
  {
    hide Enabled, AnyOn, Execute;
    AnyEnabled(d, i);
    BranchIs(F, d, i);
  }

  lemma BranchIs(F: Fpu, d: Device, i: Insn)
    requires d.Valid() && i.op in {BR, BR_COND}
    ensures Execute(F, d, i) == if AnyOn(d, i) then Stepped(d.(pc := (d.pc + 1 + i.imm) % 0x1_0000_0000), Ok)
                                else Bvrt.Advance(d)
  {
    NotComputing(i.op);
    hide Computes, AnyOn, ComputeLanes, AccessFrom, PushFrom, PopFrom;
  }

  lemma AnyEnabled(d: Device, i: Insn)
    requires d.Valid()
    ensures AnyOn(d, i) <==> exists l :: 0 <= l < |d.lanes| && Enabled(d, i, l)
  {
    EnabledIsOn(d, i);
    hide PredOk, On, Enabled;
    if l :| 0 <= l < |d.lanes| && Enabled(d, i, l) { assert On(d, i, l); }
  }

  /** EXIT ends all lanes, barriers only step on. */
  lemma EndsOrWaits(F: Fpu, d: Device, i: Insn)
    requires d.Valid() && i.op in {EXIT, BAR, BAR_CLUSTER}
    ensures var r := Execute(F, d, i);
            && r.status == Ok && StepsOn(d, r.dev.(active := d.active)) && r.dev.lanes == d.lanes
            && if i.op == EXIT then forall l :: 0 <= l < |d.lanes| ==> !r.dev.active[l] else r.dev.active == d.active
  {
    NotComputing(i.op);
    hide Computes, PredOk, ComputeLanes, AccessFrom, PushFrom, PopFrom, AnyOn;
  }

  /** TRAP and every undefined code stop with a trap, and change nothing else. */
  lemma Traps(F: Fpu, d: Device, i: Insn)
    requires d.Valid() && (i.op == TRAP || i.op.Undefined?)
    ensures Execute(F, d, i) == Stepped(d.(status := Trapped), Trapped)
  {
    NotComputing(i.op);
    hide Computes, PredOk, ComputeLanes, AccessFrom, PushFrom, PopFrom, AnyOn;
  }

  lemma EnabledIsOn(d: Device, i: Insn)
    requires d.Valid()
    ensures forall l :: 0 <= l < |d.lanes| ==> (Enabled(d, i, l) <==> On(d, i, l))
  {
  }

  /** An enabled lane's return address goes on top of its stack; with a full stack somewhere the call traps. */
  lemma {:induction false} PushesEach(d: Device, i: Insn, l: nat)
    requires d.Valid() && l <= |d.lanes|
    ensures var (e, full) := PushFrom(d, i, l);
            && (full <==> exists k :: l <= k < |d.lanes| && Enabled(d, i, k) && d.lanes[k].retsp == 16)
            && e.mem == d.mem && e.active == d.active && e.cycles == d.cycles && e.status == d.status
            && (!full ==> forall k :: 0 <= k < |d.lanes| ==>
                  e.lanes[k] == if k >= l && Enabled(d, i, k) then Pushed(d.lanes[k], (d.pc + 1) % 0x1_0000_0000)
                                else d.lanes[k])
    decreases |d.lanes| - l
  {
    EnabledIsOn(d, i);
    hide On, PredOk;
    if l < |d.lanes| {
      if !Enabled(d, i, l) {
        PushesEach(d, i, l + 1);
      } else if d.lanes[l].retsp < 16 {
        var e := d.(lanes := d.lanes[l := Pushed(d.lanes[l], (d.pc + 1) % WORD)]);
        PushesEach(e, i, l + 1);
        SameEnabled(d, e, i, l);
      }
    }
  }

  lemma SameEnabled(d: Device, e: Device, i: Insn, l: nat)
    requires d.Valid() && e.Valid() && |d.lanes| == |e.lanes| && d.active == e.active && l < |d.lanes|
    requires forall k :: 0 <= k < |d.lanes| && k != l ==> d.lanes[k] == e.lanes[k]
    ensures forall k :: l < k < |d.lanes| ==> (Enabled(d, i, k) <==> Enabled(e, i, k))
  {
  }

  function Pushed(w: Lane, back: Word): Lane
    requires w.Valid() && w.retsp < 16
  {
    w.(ret := w.ret[w.retsp := back], retsp := w.retsp + 1)
  }

  /** CALL goes to pc + 1 + imm, whether or not a lane is enabled. */
  lemma Calls(F: Fpu, d: Device, i: Insn)
    requires d.Valid() && i.op == CALL
    ensures var r := Execute(F, d, i);
            if exists k :: 0 <= k < |d.lanes| && Enabled(d, i, k) && d.lanes[k].retsp == 16
            then r.status == Trapped && r.dev.pc == d.pc
            else && r.status == Ok && r.dev.pc == (d.pc + 1 + i.imm) % 0x1_0000_0000 && r.dev.mem == d.mem
                 && forall k :: 0 <= k < |d.lanes| ==>
                      r.dev.lanes[k] == if Enabled(d, i, k) then Pushed(d.lanes[k], (d.pc + 1) % 0x1_0000_0000)
                                        else d.lanes[k]
  {
    hide PushFrom, Enabled, ComputeLanes, AccessFrom, PopFrom, AnyOn, Pushed;
    PushesEach(d, i, 0);
    CallIs(F, d, i);
  }

  lemma CallIs(F: Fpu, d: Device, i: Insn)
    requires d.Valid() && i.op == CALL
    ensures var (e, full) := PushFrom(d, i, 0);
            Execute(F, d, i) == if full then Stepped(e.(status := Trapped), Trapped)
                                else Stepped(e.(pc := (d.pc + 1 + i.imm) % 0x1_0000_0000), Ok)
  {
    NotComputing(i.op);
    hide Computes, PushFrom, ComputeLanes, AccessFrom, PopFrom, AnyOn;
  }

  /** Every active lane's stack loses its top; an empty one somewhere traps. */
  lemma {:induction false} PopsEach(d: Device, l: nat)
    requires d.Valid() && l <= |d.lanes|
    ensures var (e, empty) := PopFrom(d, l);
            && (empty <==> exists k :: l <= k < |d.lanes| && d.active[k] && d.lanes[k].retsp == 0)
            && e.mem == d.mem && e.active == d.active && e.cycles == d.cycles && e.status == d.status
            && (!empty ==> forall k :: 0 <= k < |d.lanes| ==>
                  e.lanes[k] == if k >= l && d.active[k] then Popped(d.lanes[k]) else d.lanes[k])
    decreases |d.lanes| - l
  {
    if l < |d.lanes| {
      var w := d.lanes[l];
      if !d.active[l] {
        PopsEach(d, l + 1);
      } else if w.retsp > 0 {
        PopsEach(d.(lanes := d.lanes[l := Popped(w)], pc := w.ret[w.retsp - 1]), l + 1);
      }
    }
  }

  function Popped(w: Lane): Lane { w.(retsp := if w.retsp > 0 then w.retsp - 1 else 0) }

  /** Lane k is the last active one. */
  predicate LastActive(active: seq<bool>, k: nat) {
    k < |active| && active[k] && forall m :: k < m < |active| ==> !active[m]
  }

  /** The warp goes to the return address of the last active lane. */
  lemma {:induction false} PopTarget(d: Device, l: nat, k: nat)
    requires d.Valid() && l <= k && LastActive(d.active, k) && !PopFrom(d, l).1
    ensures d.lanes[k].retsp > 0 && PopFrom(d, l).0.pc == d.lanes[k].ret[d.lanes[k].retsp - 1]
    decreases |d.lanes| - l
  {
    hide LastActive;
    assert k < |d.active| && d.active[k] by { LastIsActive(d.active, k); }
    var w := d.lanes[l];
    if d.active[l] {
      var e := d.(lanes := d.lanes[l := Popped(w)], pc := w.ret[w.retsp - 1]);
      if l < k { PopTarget(e, l + 1, k); } else { PopsNone(e, k); }
    } else {
      PopTarget(d, l + 1, k);
    }
  }

  lemma LastIsActive(active: seq<bool>, k: nat)
    requires LastActive(active, k)
    ensures k < |active| && active[k]
  {
  }

  lemma PopsNone(d: Device, k: nat)
    requires d.Valid() && LastActive(d.active, k)
    ensures PopFrom(d, k + 1) == (d, false)
  {
    NoneFrom(d, k + 1);
  }

  lemma {:induction false} NoneFrom(d: Device, l: nat)
    requires d.Valid() && l <= |d.lanes| && forall m :: l <= m < |d.lanes| ==> !d.active[m]
    ensures PopFrom(d, l) == (d, false)
    decreases |d.lanes| - l
  {
    if l < |d.lanes| { NoneFrom(d, l + 1); }
  }

  /** RET ignores its predicate. */
  lemma Returns(F: Fpu, d: Device, i: Insn, k: nat)
    requires d.Valid() && i.op == RET && LastActive(d.active, k)
    ensures k < |d.lanes|
    ensures var r := Execute(F, d, i);
            if exists l :: 0 <= l < |d.lanes| && d.active[l] && d.lanes[l].retsp == 0
            then r.status == Trapped
            else && r.status == Ok && r.dev.mem == d.mem && r.dev.active == d.active
                 && d.lanes[k].retsp > 0 && r.dev.pc == d.lanes[k].ret[d.lanes[k].retsp - 1]
                 && forall l :: 0 <= l < |d.lanes| ==>
                      r.dev.lanes[l] == if d.active[l] then Popped(d.lanes[l]) else d.lanes[l]
  {
    hide PopFrom, PushFrom, ComputeLanes, AccessFrom, AnyOn, LastActive, Popped;
    LastIsActive(d.active, k);
    PopsEach(d, 0);
    if !PopFrom(d, 0).1 { PopTarget(d, 0, k); }
    RetIs(F, d, i);
    hide Execute;
  }

  lemma RetIs(F: Fpu, d: Device, i: Insn)
    requires d.Valid() && i.op == RET
    ensures var (e, empty) := PopFrom(d, 0);
            Execute(F, d, i) == if empty then Stepped(e.(status := Trapped), Trapped) else Stepped(e, Ok)
  {
    NotComputing(i.op);
    hide Computes, PopFrom, PushFrom, ComputeLanes, AccessFrom, AnyOn;
  }

  // ---------- Launch and steps ----------

  /**
    A launch: all lanes on, the lane's number in register 1, up to sixteen arguments in registers
    16 to 31, every other register 0, predicates 0, stacks empty.
   */
  lemma LaunchIs(n: nat, entry: Word, args: seq<Word>, mem: seq<Byte>, l: nat, q: nat)
    requires l < n <= 0x1_0000_0000 && q < 256
    ensures var d := Launch(n, entry, args, mem);
            && d.pc == entry && d.mem == mem && d.insns == 0 && d.cycles == 0 && d.status == Ok && |d.lanes| == n
            && d.active[l] && d.lanes[l].retsp == 0
            && d.lanes[l].s[q] == (if q == 1 then l else if 16 <= q < 32 && q - 16 < |args| then args[q - 16] else 0)
            && (q < 16 ==> d.lanes[l].p[q] == 0)
  {
  }

  /** A step: nothing once every lane has ended, a trap outside the code, and otherwise the instruction there, counted. */
  lemma StepIs(F: Fpu, code: seq<Code>, d: Device)
    requires d.Valid()
    ensures (forall l :: 0 <= l < |d.lanes| ==> !d.active[l]) ==> Step(F, code, d) == Stepped(d, Halted)
    ensures (exists l :: 0 <= l < |d.lanes| && d.active[l]) ==>
              Step(F, code, d) == if d.pc < |code| && d.pc < 0x8000_0000
                                  then Execute(F, d.(insns := d.insns + 1), Decode(code[d.pc]))
                                  else Stepped(d.(status := Trapped), Trapped)
  {
    hide Execute, Decode;
  }
}
