/** Running a straight stretch of a program on one lane. */
module BvrtThread {
  import opened Bits
  import opened BradVector
  import opened Bvrt
  import opened BvrtUniform
  import opened BvrtCertificate

  /** The program occupies the code from base on. */
  ghost predicate Loaded(code: seq<Code>, base: nat, prog: seq<Insn>) {
    && base + |prog| <= |code| && base + |prog| < 0x8000_0000
    && forall k :: 0 <= k < |prog| ==> Decode(code[base + k]) == prog[k]
  }

  /** One running lane; at is the position in the program. */
  datatype Thread = Thread(at: nat, lane: Lane, mem: seq<Byte>, insns: nat)

  ghost predicate Is(d: Device, base: nat, t: Thread) {
    && d.Valid() && |d.lanes| == 1 && d.active[0] && d.lanes[0] == t.lane && d.mem == t.mem
    && d.pc == base + t.at && d.insns == t.insns
  }

  /** The instruction neither leaves the program nor traps. */
  predicate Runs(prog: seq<Insn>, t: Thread) {
    && t.at < |prog|
    && var i := prog[t.at];
       || (Computes(i.op) && i.op != CLOCK && i.pred == 0 && t.at + 1 < |prog|)
       || (i.op == CMP && i.pred == 0 && t.at + 1 < |prog|)
       || (i.op in {LOAD, STORE} && i.pred == 0 && t.at + 1 < |prog|
           && 0 <= Address(i, t.lane) && Address(i, t.lane) + 4 <= |t.mem| < TWO_64)
       || (i.op in {BR, BR_COND} && t.at + 1 < |prog| && 0 <= t.at + 1 + i.imm < |prog|)
  }

  function ThreadStep(F: Fpu, prog: seq<Insn>, t: Thread): Thread
    requires Runs(prog, t)
  {
    var i := prog[t.at];
    if i.op == LOAD
    then Thread(t.at + 1, SetS(t.lane, i.dst, Load32(t.mem, Address(i, t.lane))), t.mem, t.insns + 1)
    else if i.op == STORE
    then Thread(t.at + 1, t.lane, Store32(t.mem, Address(i, t.lane), GetS(t.lane, i.dst)), t.insns + 1)
    else if i.op == BR || i.op == BR_COND
    then Thread(if PredOk(t.lane, i.pred) then t.at + 1 + i.imm else t.at + 1, t.lane, t.mem, t.insns + 1)
    else Thread(t.at + 1, ComputeLane(F, i, t.lane, 0, 0), t.mem, t.insns + 1)
  }

  function ThreadRun(F: Fpu, prog: seq<Insn>, t: Thread, n: nat): Option<Thread>
    decreases n
  {
    if n == 0 then Some(t)
    else if !Runs(prog, t) then None
    else ThreadRun(F, prog, ThreadStep(F, prog, t), n - 1)
  }

  /** The device takes the thread's step. */
  lemma OneStep(F: Fpu, code: seq<Code>, base: nat, prog: seq<Insn>, d: Device, t: Thread)
    requires Loaded(code, base, prog) && Is(d, base, t) && Runs(prog, t) && t.lane.Valid()
    ensures Step(F, code, d).status == Ok && Is(Step(F, code, d).dev, base, ThreadStep(F, prog, t))
  {
    hide Decode, Runs, ThreadStep, Execute;
    RunsInside(prog, t);
    assert Decode(code[base + t.at]) == prog[t.at] && d.AnyActive();
    ExecuteThread(F, base, prog, d.(insns := d.insns + 1), t);
  }

  lemma RunsInside(prog: seq<Insn>, t: Thread)
    requires Runs(prog, t)
    ensures t.at < |prog|
  {
    hide Address;
  }

  lemma ExecuteThread(F: Fpu, base: nat, prog: seq<Insn>, d: Device, t: Thread)
    requires Is(d, base, t.(insns := t.insns + 1)) && Runs(prog, t) && t.lane.Valid() && base + |prog| < 0x8000_0000
    ensures var r := Execute(F, d, prog[t.at]);
            r.status == Ok && Is(r.dev, base, ThreadStep(F, prog, t))
  {
    hide ComputeLane, Load32, Store32, Address, SetS, GetS, AccessFrom, ComputeLanes, Execute, ThreadStep;
    var i := prog[t.at];
    if i.op == LOAD || i.op == STORE {
      AccessThread(F, base, prog, d, t);
    } else if i.op == BR || i.op == BR_COND {
      BranchThread(F, base, prog, d, t);
    } else {
      ComputeThread(F, base, prog, d, t);
    }
  }

  lemma AccessThread(F: Fpu, base: nat, prog: seq<Insn>, d: Device, t: Thread)
    requires Is(d, base, t.(insns := t.insns + 1)) && Runs(prog, t) && t.lane.Valid() && base + |prog| < 0x8000_0000
    requires prog[t.at].op in {LOAD, STORE}
    ensures var r := Execute(F, d, prog[t.at]);
            r.status == Ok && Is(r.dev, base, ThreadStep(F, prog, t))
  {
    hide ComputeLane, Load32, Store32, Address, SetS, GetS, AccessFrom, ComputeLanes;
    OneAccess(d, prog[t.at]);
  }

  lemma BranchThread(F: Fpu, base: nat, prog: seq<Insn>, d: Device, t: Thread)
    requires Is(d, base, t.(insns := t.insns + 1)) && Runs(prog, t) && t.lane.Valid() && base + |prog| < 0x8000_0000
    requires prog[t.at].op in {BR, BR_COND}
    ensures var r := Execute(F, d, prog[t.at]);
            r.status == Ok && Is(r.dev, base, ThreadStep(F, prog, t))
  {
    hide ComputeLane, Load32, Store32, Address, SetS, GetS, AccessFrom, ComputeLanes;
    assert On(d, prog[t.at], 0) == PredOk(t.lane, prog[t.at].pred);
    assert AnyOn(d, prog[t.at]) == On(d, prog[t.at], 0);
  }

  lemma ComputeThread(F: Fpu, base: nat, prog: seq<Insn>, d: Device, t: Thread)
    requires Is(d, base, t.(insns := t.insns + 1)) && Runs(prog, t) && t.lane.Valid() && base + |prog| < 0x8000_0000
    requires prog[t.at].op !in {LOAD, STORE, BR, BR_COND}
    ensures var r := Execute(F, d, prog[t.at]);
            r.status == Ok && Is(r.dev, base, ThreadStep(F, prog, t))
  {
    hide ComputeLane, Load32, Store32, Address, SetS, GetS, AccessFrom, ComputeLanes;
    var i := prog[t.at];
    SameCycles(F, i, t.lane, d.cycles);
    assert On(d, i, 0);
    assert ComputeLanes(F, d, i)[0] == ComputeLane(F, i, t.lane, 0, 0);
  }

  lemma SameCycles(F: Fpu, i: Insn, w: Lane, cycles: Word)
    requires (Computes(i.op) || i.op == CMP) && i.op != CLOCK
    ensures ComputeLane(F, i, w, 0, cycles) == ComputeLane(F, i, w, 0, 0)
  {
    hide IntegerResult;
  }

  lemma OneAccess(d: Device, i: Insn)
    requires d.Valid() && |d.lanes| == 1 && On(d, i, 0) && i.op in {LOAD, STORE}
    requires 0 <= Address(i, d.lanes[0]) && Address(i, d.lanes[0]) + 4 <= |d.mem| < TWO_64
    ensures var (e, oob) := AccessFrom(d, i, 0);
            && !oob && e == d.(lanes := [e.lanes[0]], mem := e.mem)
            && (e.lanes[0], e.mem) == AccessLane(i, d.lanes[0], d.mem)
  {
    hide Load32, Store32, Address, SetS, GetS;
    var (w, mem) := AccessLane(i, d.lanes[0], d.mem);
    AccessKeepsLane(i, d.lanes[0], d.mem);
    var e := d.(lanes := d.lanes[0 := w], mem := mem);
    assert AccessFrom(e, i, 1) == (e, false);
  }

  lemma StepKeepsLane(F: Fpu, prog: seq<Insn>, t: Thread)
    requires Runs(prog, t) && t.lane.Valid()
    ensures ThreadStep(F, prog, t).lane.Valid()
  {
    hide Load32, Store32, Address, Result;
  }

  /** A thread's run is a stretch of the device's run. */
  lemma {:induction false} ManySteps(F: Fpu, code: seq<Code>, base: nat, prog: seq<Insn>, d: Device, t: Thread,
                                     n: nat, max: nat) returns (e: Device)
    requires Loaded(code, base, prog) && Is(d, base, t) && t.lane.Valid() && t.insns + n <= max
    requires ThreadRun(F, prog, t, n).Some?
    ensures Is(e, base, ThreadRun(F, prog, t, n).value) && ThreadRun(F, prog, t, n).value.lane.Valid()
    ensures Run(F, code, d, max) == Run(F, code, e, max)
    decreases n
  {
    hide Runs, ThreadStep, Step, Loaded;
    if n == 0 {
      e := d;
    } else {
      OneStep(F, code, base, prog, d, t);
      StepKeepsLane(F, prog, t);
      e := ManySteps(F, code, base, prog, Step(F, code, d).dev, ThreadStep(F, prog, t), n - 1, max);
    }
  }

  /** EXIT ends the run. */
  lemma ExitEnds(F: Fpu, code: seq<Code>, base: nat, prog: seq<Insn>, d: Device, t: Thread, max: nat)
    requires Loaded(code, base, prog) && Is(d, base, t) && t.at < |prog| && prog[t.at].op == EXIT
    requires t.insns < max
    ensures var r := Run(F, code, d, max);
            && r.status == Halted && r.dev.mem == t.mem && r.dev.insns == t.insns + 1
            && r.dev.pc == base + t.at + 1
  {
    hide Decode;
    assert Decode(code[d.pc]) == prog[t.at];
    var e := Step(F, code, d).dev;
    assert !e.AnyActive();
  }

  // ---------- Certificates of programs ----------

  /** The positions that control can go to from position k. */
  function Successors(i: Insn, k: nat): seq<int> {
    match i.op
    case EXIT => []
    case BR | BR_COND => [k + 1, k + 1 + i.imm]
    case _ => [k + 1]
  }

  predicate CheckedAt(prog: seq<Insn>, dirty: seq<set<nat>>, k: nat)
    requires k < |prog| == |dirty|
  {
    var i := prog[k];
    && Uniform(i.op) && i.op !in {CALL, RET} && Reads(i) !! dirty[k] && 0 !in dirty[k]
    && forall j :: j in Successors(i, k) ==> 0 <= j < |prog| && Left(i, dirty[k]) <= dirty[j]
  }

  function Positions(base: nat, n: nat): (r: set<nat>)
    ensures forall pc: nat :: pc in r <==> base <= pc < base + n
  {
    if n == 0 then {} else Positions(base, n - 1) + {base + n - 1}
  }

  function CertificateOf(base: nat, dirty: seq<set<nat>>): Certificate {
    map pc | pc in Positions(base, |dirty|) :: dirty[pc - base]
  }

  /** A program whose positions all check out is certified wherever it is loaded. */
  lemma CheckedIsCertified(code: seq<Code>, base: nat, prog: seq<Insn>, dirty: seq<set<nat>>)
    requires Loaded(code, base, prog) && |prog| == |dirty|
    requires forall k :: 0 <= k < |prog| ==> CheckedAt(prog, dirty, k)
    ensures Certified(code, CertificateOf(base, dirty))
  {
    hide Decode, Reads, FlowsTo, Successors;
    var cert := CertificateOf(base, dirty);
    forall pc | pc in cert ensures CertifiedAt(code, cert, pc) {
      var k := pc - base;
      assert CheckedAt(prog, dirty, k) && Decode(code[base + k]) == prog[k];
      forall j: Word | FlowsTo(prog[k], pc, j) && j < |code|
        ensures j in cert && Left(prog[k], cert[pc]) <= cert[j]
      {
        FlowIsSuccessor(prog[k], k, base, |prog|, j);
      }
    }
  }

  lemma FlowIsSuccessor(i: Insn, k: nat, base: nat, n: nat, j: Word)
    requires k < n && base + n < 0x8000_0000 && i.op !in {CALL, RET} && FlowsTo(i, base + k, j)
    requires forall s :: s in Successors(i, k) ==> 0 <= s < n
    ensures (j - base) in Successors(i, k)
  {
    assert i.op != EXIT ==> (k + 1) in Successors(i, k);
    assert i.op == BR || i.op == BR_COND ==> (k + 1 + i.imm) in Successors(i, k);
  }
}
