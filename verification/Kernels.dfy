/** The instruction forms that the bundled kernels use, and their effect on one lane. */
module Kernels {
  import opened Bits
  import opened BradVector
  import opened Bvrt
  import opened BvrtCertificate
  import opened BvrtThread

  function Reg3(op: Op, d: nat, a: nat, b: nat): Insn { Insn(op, 0, d, a, b, 0, 0, 0) }

  /** MOV is an addition of the immediate 0. */
  function Mov(d: nat, a: nat): Insn { Insn(ADDi, 0, d, a, 0, 0, 0, 0) }

  function Cmp(p: nat, a: nat, b: nat): Insn { Insn(CMP, 0, p, a, b, 0, 0, 0) }

  function Load(d: nat, base: nat): Insn { Insn(LOAD, 0, d, base, 0, 0, 0, 0) }

  function StoreTo(base: nat, v: nat): Insn { Insn(STORE, 0, v, base, 0, 0, 0, 0) }

  function Branch(imm: int): Insn { Insn(BR, 0, 0, 0, 0, imm, 0, 0) }

  /** A branch under predicate register p. */
  function BranchIf(p: nat, imm: int): Insn { Insn(BR_COND, p + 1, 0, 0, 0, imm, 0, 0) }

  function Exit(): Insn { Insn(EXIT, 0, 0, 0, 0, 0, 0, 0) }

  /** Adding +0 leaves the bit patterns of non-negative finite numbers unchanged. */
  ghost predicate MovExact(F: Fpu) {
    forall x: Word :: x < 0x7F80_0000 ==> (F.addImm)(x, 0) == x
  }

  /** What one instruction writes: a scalar register of the lane. */
  function Wrote(t: Thread, r: nat, v: Word): Thread {
    t.(at := t.at + 1, lane := SetS(t.lane, r, v), insns := t.insns + 1)
  }

  lemma MovStep(F: Fpu, prog: seq<Insn>, t: Thread, d: nat, a: nat)
    requires MovExact(F) && t.at + 1 < |prog| && prog[t.at] == Mov(d, a) && GetS(t.lane, a) < 0x7F80_0000
    ensures Runs(prog, t) && ThreadStep(F, prog, t) == Wrote(t, d, GetS(t.lane, a))
  {
  }

  lemma FloatStep(F: Fpu, prog: seq<Insn>, t: Thread, op: Op, d: nat, a: nat, b: nat)
    requires t.at + 1 < |prog| && prog[t.at] == Reg3(op, d, a, b) && op in {ADD, MUL, MAD}
    ensures Runs(prog, t)
    ensures ThreadStep(F, prog, t) == Wrote(t, d,
              if op == MAD then (F.mad)(GetS(t.lane, a), GetS(t.lane, b), GetS(t.lane, d))
              else (F.binary)(op, GetS(t.lane, a), GetS(t.lane, b)))
  {
  }

  lemma IntStep(F: Fpu, prog: seq<Insn>, t: Thread, op: Op, d: nat, a: nat, b: nat)
    requires t.at + 1 < |prog| && prog[t.at] == Reg3(op, d, a, b) && op in {IADD, ISUB}
    ensures Runs(prog, t)
    ensures var x := if op == IADD then GetS(t.lane, a) + GetS(t.lane, b) else GetS(t.lane, a) - GetS(t.lane, b);
            0 <= x < WORD ==> ThreadStep(F, prog, t) == Wrote(t, d, x)
  {
    hide IntegerResult, GetS, SetS, Compare;
    AddSub(op, GetS(t.lane, a), GetS(t.lane, b), GetS(t.lane, d));
  }

  lemma AddSub(op: Op, a: Word, b: Word, c: Word)
    requires op in {IADD, ISUB}
    ensures var x := if op == IADD then a + b else a - b; 0 <= x < WORD ==> IntegerResult(op, a, b, c) == x
  {
    hide PopCount, HighBit, Bits.And, Bits.Or, Bits.Xor, Bits.Not, Shl, Shr, Quotient;
  }

  lemma LoadStep(F: Fpu, prog: seq<Insn>, t: Thread, d: nat, base: nat)
    requires t.at + 1 < |prog| && prog[t.at] == Load(d, base)
    requires GetS(t.lane, base) + 4 <= |t.mem| < 0x8000_0000
    ensures Runs(prog, t) && ThreadStep(F, prog, t) == Wrote(t, d, Read32(t.mem, GetS(t.lane, base)))
  {
  }

  lemma StoreStep(F: Fpu, prog: seq<Insn>, t: Thread, base: nat, v: nat)
    requires t.at + 1 < |prog| && prog[t.at] == StoreTo(base, v)
    requires GetS(t.lane, base) + 4 <= |t.mem| < 0x8000_0000
    ensures Runs(prog, t)
    ensures ThreadStep(F, prog, t)
            == t.(at := t.at + 1, mem := Write32(t.mem, GetS(t.lane, base), GetS(t.lane, v)), insns := t.insns + 1)
  {
  }

  lemma CmpStep(F: Fpu, prog: seq<Insn>, t: Thread, a: nat, b: nat)
    requires t.lane.Valid() && t.at + 1 < |prog| && prog[t.at] == Cmp(0, a, b)
    ensures Runs(prog, t)
    ensures ThreadStep(F, prog, t)
            == t.(at := t.at + 1, insns := t.insns + 1,
                  lane := SetP(t.lane, 0, if GetS(t.lane, a) == GetS(t.lane, b) then 1 else 0))
  {
    hide GetS, SetS, SetP;
  }

  lemma BranchIfStep(F: Fpu, prog: seq<Insn>, t: Thread, imm: int)
    requires t.at + 1 < |prog| && prog[t.at] == BranchIf(0, imm) && 0 <= t.at + 1 + imm < |prog|
    ensures Runs(prog, t)
    ensures ThreadStep(F, prog, t)
            == t.(at := if GetP(t.lane, 0) != 0 then t.at + 1 + imm else t.at + 1, insns := t.insns + 1)
  {
    hide GetP;
  }

  /** Compare for equality, then branch: two instructions, the second taken when the words are equal. */
  lemma CmpBranchSteps(F: Fpu, prog: seq<Insn>, t: Thread, a: nat, b: nat, imm: int)
    requires t.lane.Valid() && t.at + 2 < |prog| && prog[t.at] == Cmp(0, a, b) && prog[t.at + 1] == BranchIf(0, imm)
    requires 0 <= t.at + 2 + imm < |prog|
    ensures var eq := GetS(t.lane, a) == GetS(t.lane, b);
            ThreadRun(F, prog, t, 2) == Some(t.(at := if eq then t.at + 2 + imm else t.at + 2,
              lane := SetP(t.lane, 0, if eq then 1 else 0), insns := t.insns + 2))
  {
    hide Runs, ThreadStep, GetS, Cmp, BranchIf;
    var eq := GetS(t.lane, a) == GetS(t.lane, b);
    CmpStep(F, prog, t, a, b);
    var t1 := ThreadStep(F, prog, t);
    assert GetP(t1.lane, 0) == if eq then 1 else 0;
    BranchIfStep(F, prog, t1, imm);
    assert ThreadRun(F, prog, t1, 1) == ThreadRun(F, prog, ThreadStep(F, prog, t1), 0);
  }

  lemma BranchStep(F: Fpu, prog: seq<Insn>, t: Thread, imm: int)
    requires t.at + 1 < |prog| && prog[t.at] == Branch(imm) && 0 <= t.at + 1 + imm < |prog|
    ensures Runs(prog, t) && ThreadStep(F, prog, t) == t.(at := t.at + 1 + imm, insns := t.insns + 1)
  {
  }

  lemma {:induction false} RunConcat(F: Fpu, prog: seq<Insn>, t: Thread, m: nat, n: nat)
    requires ThreadRun(F, prog, t, m).Some?
    ensures ThreadRun(F, prog, t, m + n) == ThreadRun(F, prog, ThreadRun(F, prog, t, m).value, n)
    decreases m
  {
    hide Runs, ThreadStep;
    if m > 0 {
      RunConcat(F, prog, ThreadStep(F, prog, t), m - 1, n);
    }
  }

  /** One more step. */
  lemma Then(F: Fpu, prog: seq<Insn>, t: Thread, n: nat, u: Thread)
    requires ThreadRun(F, prog, t, n) == Some(u) && Runs(prog, u)
    ensures ThreadRun(F, prog, t, n + 1) == Some(ThreadStep(F, prog, u))
  {
    hide Runs, ThreadStep;
    RunConcat(F, prog, t, n, 1);
    assert ThreadRun(F, prog, ThreadStep(F, prog, u), 0) == Some(ThreadStep(F, prog, u));
  }

  // ---------- Sums of products ----------

  function Times(step: nat, j: nat): nat { step * j }

  lemma TimesNext(step: nat, j: nat)
    ensures Times(step, j + 1) == Times(step, j) + step && Times(step, 0) == 0
  {
  }

  /** The left fold of multiply-adds over the first j products, starting from 0. */
  function MadFold(F: Fpu, mem: seq<Byte>, x: nat, y: nat, step: nat, j: nat): Word {
    if j == 0 then 0
    else (F.mad)(Read32(mem, x + 4 * (j - 1)), Read32(mem, y + Times(step, j - 1)), MadFold(F, mem, x, y, step, j - 1))
  }

  lemma NextFold(F: Fpu, mem: seq<Byte>, x: nat, y: nat, step: nat, j: nat)
    ensures MadFold(F, mem, x, y, step, j + 1)
            == (F.mad)(Read32(mem, x + 4 * j), Read32(mem, y + Times(step, j)), MadFold(F, mem, x, y, step, j))
    ensures MadFold(F, mem, x, y, step, 0) == 0
  {
    hide Read32, Times;
  }

  // ---------- Launching ----------

  /** The registers of a fresh launch hold the arguments. */
  lemma LaunchedArgs(args: seq<Word>, i: nat)
    requires i < |args| <= NUM_ARGS
    ensures LaunchLane(0, args).s[ARG_BASE + i] == args[i]
  {
  }

  /**
    The lanes of a launch differ at first in the thread-id register alone; `clean` is the
    position from which on they agree.
   */
  function Dirty(n: nat, clean: nat): seq<set<nat>> {
    seq(n, k => if k < clean then {THREAD_ID} else {})
  }

  /** What a program must look like for the lanes to agree: checked instruction by instruction. */
  predicate Lockstep(prog: seq<Insn>, clean: nat) {
    0 < clean < |prog| && forall k :: 0 <= k < |prog| ==> CheckedAt(prog, Dirty(|prog|, clean), k)
  }

  /**
    A stretch of a thread's run up to EXIT gives the whole run of a launch on the full warp:
    it halts, with the thread's memory and instruction count.
   */
  lemma WholeRun(F: Fpu, code: seq<Code>, base: Word, prog: seq<Insn>, clean: nat, args: seq<Word>, mem: seq<Byte>,
                 n: nat, u: Thread, max: nat)
    requires Loaded(code, base, prog) && Lockstep(prog, clean) && n < max
    requires ThreadRun(F, prog, Thread(0, LaunchLane(0, args), mem, 0), n) == Some(u)
    requires u.at < |prog| && prog[u.at].op == EXIT && u.insns == n
    ensures var r := Run(F, code, Launch(WARP_SIZE, base, args, mem), max);
            r.status == Halted && r.dev.mem == u.mem && r.dev.insns == n + 1
  {
    hide Run, ThreadRun, Loaded, CheckedAt, Certified;
    var cert := CertificateOf(base, Dirty(|prog|, clean));
    CheckedIsCertified(code, base, prog, Dirty(|prog|, clean));
    LoadedAt(code, base, prog);
    WarpRunsAsOneLane(F, code, cert, base, args, mem, max);
    var d := Launch(1, base, args, mem);
    var e := ManySteps(F, code, base, prog, d, Thread(0, LaunchLane(0, args), mem, 0), n, max);
    ExitEnds(F, code, base, prog, e, u, max);
  }

  lemma LoadedAt(code: seq<Code>, base: nat, prog: seq<Insn>)
    requires Loaded(code, base, prog)
    ensures base + |prog| <= |code|
  {
  }
}
