/**
  Dataflow certificates: for each address that a launch can reach, the registers on which the
  lanes may still differ. A certified program runs on 32 lanes as on one.
 */
module BvrtCertificate {
  import opened Bits
  import opened BradVector
  import opened Bvrt
  import opened BvrtUniform

  type Certificate = map<nat, set<nat>>

  /** Whether control can pass from an instruction at pc to j. */
  predicate FlowsTo(i: Insn, pc: Word, j: Word) {
    match i.op
    case RET => true
    case EXIT => false
    case CALL => j == Target(pc, i.imm)
    case BR | BR_COND => j == Target(pc, i.imm) || j == (pc + 1) % WORD
    case _ => j == (pc + 1) % WORD
  }

  /** What stays dirty after an instruction, whatever its predicate says. */
  function Left(i: Insn, dirty: set<nat>): set<nat> {
    if (Computes(i.op) || i.op == LOAD) && i.pred == 0 then dirty - {i.dst} else dirty
  }

  /** The certificate covers pc: nothing dirty is read there, and it covers where control goes. */
  ghost predicate CertifiedAt(code: seq<Code>, cert: Certificate, pc: nat)
    requires pc in cert
  {
    && pc < |code| && pc < WORD
    && var i := Decode(code[pc]);
       && Uniform(i.op) && Reads(i) !! cert[pc] && 0 !in cert[pc]
       && forall j: Word :: FlowsTo(i, pc, j) && j < |code| ==> j in cert && Left(i, cert[pc]) <= cert[j]
  }

  ghost predicate Certified(code: seq<Code>, cert: Certificate) {
    forall pc :: pc in cert ==> CertifiedAt(code, cert, pc)
  }

  /** The lanes may differ at most where the certificate says so; outside the code no question arises. */
  ghost predicate Covered(code: seq<Code>, cert: Certificate, pc: Word, dirty: set<nat>) {
    pc < |code| ==> pc in cert && dirty <= cert[pc]
  }

  /** While some lane is active, control goes where `FlowsTo` says. */
  lemma ExecuteFlows(F: Fpu, d: Device, i: Insn)
    requires d.Valid() && Execute(F, d, i).status == Ok && Execute(F, d, i).dev.AnyActive()
    ensures FlowsTo(i, d.pc, Execute(F, d, i).dev.pc)
  {
    hide AccessFrom, PushFrom, PopFrom, ComputeLanes, AnyOn;
  }

  /** The warp and the single lane take the same step. */
  lemma StepAgrees(F: Fpu, code: seq<Code>, cert: Certificate, d: Device, u: Device, dirty: set<nat>)
    returns (left: set<nat>)
    requires Certified(code, cert) && Agree(d, u, dirty) && d.AnyActive() && Covered(code, cert, d.pc, dirty)
    ensures left <= dirty && Step(F, code, d).status == Step(F, code, u).status
    ensures Agree(Step(F, code, d).dev, Step(F, code, u).dev, left)
    ensures Step(F, code, d).status == Ok && Step(F, code, d).dev.AnyActive() ==>
              Covered(code, cert, Step(F, code, d).dev.pc, left)
  {
    hide Execute, LaneAgrees, PredOk, Agree, CertifiedAt, Decode;
    AnyOnAgrees(d, u, Decode(0), dirty);
    AgreeShape(d, u, dirty);
    if d.pc >= 0x8000_0000 || d.pc >= |code| {
      TrapAgrees(d, u, dirty);
      left := dirty;
    } else {
      CountAgrees(d, u, dirty);
      left := CertifiedStep(F, code, cert, d.(insns := d.insns + 1), u.(insns := u.insns + 1), dirty);
    }
  }

  lemma CertifiedStep(F: Fpu, code: seq<Code>, cert: Certificate, d: Device, u: Device, dirty: set<nat>)
    returns (left: set<nat>)
    requires d.pc in cert && CertifiedAt(code, cert, d.pc)
    requires Agree(d, u, dirty) && dirty <= cert[d.pc] && u.AnyActive()
    ensures left <= dirty
    ensures var i := Decode(code[d.pc]);
            && Execute(F, d, i).status == Execute(F, u, i).status
            && Agree(Execute(F, d, i).dev, Execute(F, u, i).dev, left)
            && (Execute(F, d, i).status == Ok && Execute(F, d, i).dev.AnyActive() ==>
                  Covered(code, cert, Execute(F, d, i).dev.pc, left))
  {
    hide Execute, PredOk, Agree, Decode, FlowsTo, Reads, Computes;
    AgreeShape(d, u, dirty);
    var i := Decode(code[d.pc]);
    ExecuteAgrees(F, d, u, i, dirty);
    left := dirty;
    if Execute(F, u, i).status == Ok {
      left := DirtyAfter(i, u, dirty);
      if Execute(F, d, i).dev.AnyActive() { ExecuteFlows(F, d, i); }
      OneLaneActive(u);
      AfterLeft(i, u, dirty, cert[d.pc]);
    }
  }

  lemma AfterLeft(i: Insn, u: Device, dirty: set<nat>, claimed: set<nat>)
    requires u.Valid() && u.active[0] && dirty <= claimed
    ensures DirtyAfter(i, u, dirty) <= Left(i, claimed)
  {
    hide Computes;
  }

  lemma OneLaneActive(u: Device)
    requires u.Valid() && |u.lanes| == 1 && u.AnyActive()
    ensures u.active[0]
  {
  }

  lemma CountAgrees(d: Device, u: Device, dirty: set<nat>)
    requires Agree(d, u, dirty)
    ensures Agree(d.(insns := d.insns + 1), u.(insns := u.insns + 1), dirty)
  {
    hide LaneAgrees;
  }

  lemma {:induction false} RunAgrees(F: Fpu, code: seq<Code>, cert: Certificate, d: Device, u: Device,
                                     dirty: set<nat>, max: nat) returns (left: set<nat>)
    requires Certified(code, cert) && Agree(d, u, dirty)
    requires d.AnyActive() ==> Covered(code, cert, d.pc, dirty)
    ensures left <= dirty && Run(F, code, d, max).status == Run(F, code, u, max).status
    ensures Agree(Run(F, code, d, max).dev, Run(F, code, u, max).dev, left)
    decreases max - d.insns
  {
    hide Step, LaneAgrees, PredOk, Certified, Covered;
    AnyOnAgrees(d, u, Decode(0), dirty);
    AgreeShape(d, u, dirty);
    left := dirty;
    if d.AnyActive() && d.insns < max {
      left := StepAgrees(F, code, cert, d, u, dirty);
      if Step(F, code, d).status == Ok {
        left := RunAgrees(F, code, cert, Step(F, code, d).dev, Step(F, code, u).dev, left, max);
      }
    }
  }

  lemma LaunchAgrees(n: nat, entry: Word, args: seq<Word>, mem: seq<Byte>)
    requires n > 0
    ensures Agree(Launch(n, entry, args, mem), Launch(1, entry, args, mem), {THREAD_ID})
  {
  }

  lemma AgreesOutside(d: Device, u: Device, left: set<nat>, dirty: set<nat>)
    requires Agree(d, u, left) && left <= dirty
    ensures Agree(d, u, dirty)
  {
  }

  /**
    Lane uniformity: whatever the program computes on 32 lanes, it computes on one. The two
    runs end with the same status, memory, program counter and instruction count, and every lane
    ends with the single lane's mask bit, predicates, return stack and scalar registers, but for
    S1, where the launch puts the lane's index.
   */
  lemma WarpRunsAsOneLane(F: Fpu, code: seq<Code>, cert: Certificate, entry: Word, args: seq<Word>,
                          mem: seq<Byte>, max: nat)
    requires Certified(code, cert) && (entry < |code| ==> entry in cert && THREAD_ID in cert[entry])
    ensures var warp := Run(F, code, Launch(WARP_SIZE, entry, args, mem), max);
            var one := Run(F, code, Launch(1, entry, args, mem), max);
            && warp.status == one.status && warp.dev.mem == one.dev.mem && warp.dev.pc == one.dev.pc
            && warp.dev.insns == one.dev.insns && warp.dev.status == one.dev.status
            && forall l :: 0 <= l < WARP_SIZE ==>
                 && warp.dev.active[l] == one.dev.active[0]
                 && LaneAgrees(warp.dev.lanes[l], one.dev.lanes[0], {THREAD_ID})
  {
    hide Run, Certified, LaneAgrees;
    var d, u := Launch(WARP_SIZE, entry, args, mem), Launch(1, entry, args, mem);
    LaunchAgrees(WARP_SIZE, entry, args, mem);
    var left := RunAgrees(F, code, cert, d, u, {THREAD_ID}, max);
    AgreesOutside(Run(F, code, d, max).dev, Run(F, code, u, max).dev, left, {THREAD_ID});
  }

  // ---------- Registers that a program never reads ----------

  /** No instruction reads a register of D, or does anything that depends on the lane's index. */
  ghost predicate NeverReads(code: seq<Code>, D: set<nat>) {
    forall pc :: 0 <= pc < |code| ==> Uniform(Decode(code[pc]).op) && Reads(Decode(code[pc])) !! D
  }

  predicate Reachable(pc: nat) { pc < WORD }

  /** The same registers everywhere. */
  function Constant(code: seq<Code>, D: set<nat>): Certificate {
    map pc: nat | pc < |code| && Reachable(pc) :: D
  }

  lemma ConstantCertified(code: seq<Code>, D: set<nat>)
    requires NeverReads(code, D) && 0 !in D
    ensures Certified(code, Constant(code, D))
  {
    hide Decode, Reads, FlowsTo, Computes;
  }

  /** From any start, a program that never reads a register of D runs on all lanes as on one, outside D. */
  lemma UnreadRunsAsOneLane(F: Fpu, code: seq<Code>, d: Device, u: Device, D: set<nat>, max: nat)
    requires NeverReads(code, D) && 0 !in D && Agree(d, u, D)
    ensures Run(F, code, d, max).status == Run(F, code, u, max).status
    ensures Agree(Run(F, code, d, max).dev, Run(F, code, u, max).dev, D)
  {
    hide Run, Agree, Certified, NeverReads;
    AgreeShape(d, u, D);
    ConstantCertified(code, D);
    var left := RunAgrees(F, code, Constant(code, D), d, u, D, max);
    AgreesOutside(Run(F, code, d, max).dev, Run(F, code, u, max).dev, left, D);
  }

  /** All lanes are on or off together and equal outside D. */
  ghost predicate EqualOutside(d: Device, D: set<nat>) {
    && d.Valid()
    && forall l :: 0 <= l < |d.lanes| ==> d.active[l] == d.active[0] && LaneAgrees(d.lanes[l], d.lanes[0], D)
  }

  function FirstLane(d: Device): Device
    requires d.Valid()
  {
    d.(lanes := d.lanes[..1], active := d.active[..1])
  }

  lemma FirstLaneAgrees(d: Device, D: set<nat>)
    requires EqualOutside(d, D)
    ensures d.Valid() && FirstLane(d).Valid() && Agree(d, FirstLane(d), D)
  {
    hide LaneAgrees;
  }

  lemma AgreeingLanes(d: Device, u: Device, D: set<nat>)
    requires Agree(d, u, D)
    ensures EqualOutside(d, D)
  {
  }

  /** Lanes that are equal outside D stay so over every run of such a program. */
  lemma LanesStayEqual(F: Fpu, code: seq<Code>, d: Device, D: set<nat>, max: nat)
    requires NeverReads(code, D) && 0 !in D && EqualOutside(d, D)
    ensures EqualOutside(Run(F, code, d, max).dev, D)
  {
    hide Run, Agree, EqualOutside, NeverReads;
    FirstLaneAgrees(d, D);
    UnreadRunsAsOneLane(F, code, d, FirstLane(d), D, max);
    AgreeingLanes(Run(F, code, d, max).dev, Run(F, code, FirstLane(d), max).dev, D);
  }
}
