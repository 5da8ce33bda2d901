/** What every run keeps: the active mask, the zero register, and call-stack discipline. */
module BvrtStack {
  import opened Bits
  import opened BradVector
  import opened Bvrt
  import opened BvrtUniform

  /** Every call in the program is unpredicated. */
  ghost predicate PlainCalls(code: seq<Code>) {
    forall pc :: 0 <= pc < |code| ==> PlainCall(code, pc)
  }

  ghost predicate PlainCall(code: seq<Code>, pc: nat)
    requires pc < |code|
  {
    Decode(code[pc]).op == CALL ==> Decode(code[pc]).pred == 0
  }

  /** A lane that behaves like the first one as far as control goes. */
  ghost predicate LaneInStep(d: Device, l: nat)
    requires d.Valid() && l < |d.lanes|
  {
    && d.active[l] == d.active[0] && d.lanes[l].s[0] == 0
    && d.lanes[l].ret == d.lanes[0].ret && d.lanes[l].retsp == d.lanes[0].retsp
  }

  /** The mask is all ones or zero, register 0 is zero, and all return stacks are the same. */
  ghost predicate InStep(d: Device) {
    d.Valid() && forall l :: 0 <= l < |d.lanes| ==> LaneInStep(d, l)
  }

  /** The common return stack, oldest first. */
  function Stack(d: Device): seq<Word>
    requires d.Valid()
  {
    d.lanes[0].ret[..d.lanes[0].retsp]
  }

  lemma LaunchInStep(n: nat, entry: Word, args: seq<Word>, mem: seq<Byte>)
    requires n > 0
    ensures InStep(Launch(n, entry, args, mem)) && Stack(Launch(n, entry, args, mem)) == []
  {
  }

  // ---------- One instruction ----------

  /** Everything but calls and returns leaves the control part of every lane alone. */
  ghost predicate SameControl(w: Lane, v: Lane) {
    w.Valid() && v.Valid() && w.ret == v.ret && w.retsp == v.retsp && (w.s[0] == 0 ==> v.s[0] == 0)
  }

  lemma ComputeKeeps(F: Fpu, i: Insn, w: Lane, l: nat, cycles: Word)
    requires w.Valid()
    ensures SameControl(w, ComputeLane(F, i, w, l, cycles))
  {
    hide Result, Compare;
  }

  lemma AccessKeeps(i: Insn, w: Lane, mem: seq<Byte>)
    requires w.Valid()
    ensures SameControl(w, AccessLane(i, w, mem).0)
  {
    hide Load32, Store32, Address;
  }

  /** Two devices whose lanes have the same control part. */
  ghost predicate ControlAlike(d: Device, e: Device) {
    && d.Valid() && e.Valid() && |d.lanes| == |e.lanes| && d.active == e.active
    && forall l :: 0 <= l < |d.lanes| ==> SameControl(d.lanes[l], e.lanes[l])
  }

  lemma AlikeKeeps(d: Device, e: Device)
    requires InStep(d) && ControlAlike(d, e)
    ensures InStep(e) && Stack(e) == Stack(d)
  {
    forall l | 0 <= l < |e.lanes| ensures LaneInStep(e, l) {
      assert LaneInStep(d, l) && SameControl(d.lanes[l], e.lanes[l]) && SameControl(d.lanes[0], e.lanes[0]);
    }
  }

  lemma {:induction false} AccessAlike(d: Device, i: Insn, l: nat)
    requires d.Valid() && l <= |d.lanes|
    ensures ControlAlike(d, AccessFrom(d, i, l).0)
    decreases |d.lanes| - l
  {
    hide AccessLane, OutOfBounds, PredOk;
    if l < |d.lanes| {
      if !On(d, i, l) {
        AccessAlike(d, i, l + 1);
      } else if !OutOfBounds(d.mem, Address(i, d.lanes[l])) {
        AccessKeeps(i, d.lanes[l], d.mem);
        var (w, mem) := AccessLane(i, d.lanes[l], d.mem);
        var e := d.(lanes := d.lanes[l := w], mem := mem);
        AccessAlike(e, i, l + 1);
        Through(d, e, AccessFrom(e, i, l + 1).0);
      }
    }
  }

  lemma Through(d: Device, e: Device, f: Device)
    requires ControlAlike(d, e) && ControlAlike(e, f)
    ensures ControlAlike(d, f)
  {
    forall l | 0 <= l < |d.lanes| ensures SameControl(d.lanes[l], f.lanes[l]) {
      assert SameControl(d.lanes[l], e.lanes[l]) && SameControl(e.lanes[l], f.lanes[l]);
    }
  }

  lemma ComputeAlike(F: Fpu, d: Device, i: Insn)
    requires d.Valid()
    ensures ControlAlike(d, d.(lanes := ComputeLanes(F, d, i)))
  {
    hide ComputeLane, PredOk;
    var lanes := ComputeLanes(F, d, i);
    forall l | 0 <= l < |d.lanes| ensures SameControl(d.lanes[l], lanes[l]) {
      ComputeKeeps(F, i, d.lanes[l], l, d.cycles);
    }
  }

  /** What one instruction does to the stack and the program counter. */
  ghost predicate StackEffect(d: Device, i: Insn, r: Stepped)
    requires d.Valid() && r.dev.Valid()
  {
    && (r.status == Ok && i.op == CALL ==>
          Stack(r.dev) == Stack(d) + [(d.pc + 1) % WORD] && r.dev.pc == Target(d.pc, i.imm))
    && (r.status == Ok && i.op == RET ==> Stack(r.dev) + [r.dev.pc] == Stack(d))
    && (r.status != Ok || i.op !in {CALL, RET} ==> Stack(r.dev) == Stack(d))
    && (r.status == Trapped ==> r.dev.pc == d.pc && r.dev.status == Trapped)
  }

  lemma ExecuteKeeps(F: Fpu, d: Device, i: Insn)
    requires InStep(d) && d.AnyActive() && (i.op == CALL ==> i.pred == 0)
    ensures InStep(Execute(F, d, i).dev) && StackEffect(d, i, Execute(F, d, i))
  {
    assert d.Valid();
    hide Execute, InStep, PushFrom, PopFrom, AccessFrom, Computes;
    AllActive(d);
    if i.op == CALL {
      CallKeeps(F, d, i);
    } else if i.op == RET {
      RetKeeps(F, d, i);
    } else if i.op in {LOAD, STORE, ATOMIC_ADD} {
      AccessAlike(d, i, 0);
      MemoryKeeps(F, d, i);
    } else if i.op == EXIT {
      ExitKeeps(F, d, i);
    } else {
      OtherKeeps(F, d, i);
    }
  }

  lemma AllActive(d: Device)
    requires InStep(d) && d.AnyActive()
    ensures forall l :: 0 <= l < |d.lanes| ==> d.active[l]
  {
    forall l | 0 <= l < |d.lanes| ensures d.active[l] == d.active[0] { assert LaneInStep(d, l); }
  }

  lemma CallKeeps(F: Fpu, d: Device, i: Insn)
    requires InStep(d) && i.op == CALL && i.pred == 0 && forall l :: 0 <= l < |d.lanes| ==> d.active[l]
    ensures InStep(Execute(F, d, i).dev) && StackEffect(d, i, Execute(F, d, i))
  {
    hide PushFrom;
    var depth := d.lanes[0].retsp;
    forall l | 0 <= l < |d.lanes| ensures On(d, i, l) && d.lanes[l].retsp == depth { assert LaneInStep(d, l); }
    PushAll(d, i, 0, true, depth);
    var (e, full) := PushFrom(d, i, 0);
    var r := Execute(F, d, i);
    if full {
      assert r == Trap(d);
      forall l | 0 <= l < |d.lanes| ensures LaneInStep(r.dev, l) { assert LaneInStep(d, l); }
    } else {
      assert r.dev == e.(pc := Target(d.pc, i.imm));
      forall l | 0 <= l < |d.lanes| ensures LaneInStep(r.dev, l) { assert LaneInStep(d, l); }
      assert Stack(r.dev) == Stack(d) + [(d.pc + 1) % WORD];
    }
  }

  lemma RetKeeps(F: Fpu, d: Device, i: Insn)
    requires InStep(d) && i.op == RET && forall l :: 0 <= l < |d.lanes| ==> d.active[l]
    ensures InStep(Execute(F, d, i).dev) && StackEffect(d, i, Execute(F, d, i))
  {
    hide PopFrom;
    var depth, ret := d.lanes[0].retsp, d.lanes[0].ret;
    forall l | 0 <= l < |d.lanes| ensures d.lanes[l].ret == ret && d.lanes[l].retsp == depth {
      assert LaneInStep(d, l);
    }
    PopAll(d, 0, true, ret, depth);
    var (e, empty) := PopFrom(d, 0);
    var r := Execute(F, d, i);
    if empty {
      assert r == Trap(d);
      forall l | 0 <= l < |d.lanes| ensures LaneInStep(r.dev, l) { assert LaneInStep(d, l); }
    } else {
      assert r.dev == e;
      forall l | 0 <= l < |d.lanes| ensures LaneInStep(r.dev, l) { assert LaneInStep(d, l); }
      assert Stack(r.dev) + [r.dev.pc] == Stack(d);
    }
  }

  lemma SettledAlike(d: Device, e: Device, pc: Word, cycles: Word, status: Status)
    requires ControlAlike(d, e)
    ensures ControlAlike(d, e.(pc := pc, cycles := cycles, status := status))
  {
  }

  lemma MemoryKeeps(F: Fpu, d: Device, i: Insn)
    requires InStep(d) && i.op in {LOAD, STORE, ATOMIC_ADD} && ControlAlike(d, AccessFrom(d, i, 0).0)
    ensures InStep(Execute(F, d, i).dev) && StackEffect(d, i, Execute(F, d, i))
  {
    assert d.Valid();
    hide AccessFrom, InStep, ControlAlike, Device.Valid;
    var (e, oob) := AccessFrom(d, i, 0);
    var r := Execute(F, d, i);
    SettledAlike(d, e, r.dev.pc, r.dev.cycles, r.dev.status);
    AlikeKeeps(d, r.dev);
  }

  lemma ExitKeeps(F: Fpu, d: Device, i: Insn)
    requires InStep(d) && i.op == EXIT
    ensures InStep(Execute(F, d, i).dev) && StackEffect(d, i, Execute(F, d, i))
  {
    var r := Execute(F, d, i);
    forall l | 0 <= l < |d.lanes| ensures LaneInStep(r.dev, l) { assert LaneInStep(d, l); }
  }

  lemma OtherKeeps(F: Fpu, d: Device, i: Insn)
    requires InStep(d) && i.op !in {CALL, RET, LOAD, STORE, ATOMIC_ADD, EXIT}
    ensures InStep(Execute(F, d, i).dev) && StackEffect(d, i, Execute(F, d, i))
  {
    assert d.Valid();
    hide ComputeLanes, InStep, ControlAlike, AnyOn, Device.Valid;
    ComputeAlike(F, d, i);
    AlikeItself(d);
    var r := Execute(F, d, i);
    if Computes(i.op) || i.op == CMP {
      SettledAlike(d, d.(lanes := ComputeLanes(F, d, i)), r.dev.pc, r.dev.cycles, r.dev.status);
    } else {
      SettledAlike(d, d, r.dev.pc, r.dev.cycles, r.dev.status);
    }
    AlikeKeeps(d, r.dev);
  }

  lemma AlikeItself(d: Device)
    requires d.Valid()
    ensures ControlAlike(d, d)
  {
  }

  lemma ShapeValid(d: Device)
    requires InStep(d)
    ensures d.Valid()
  {
  }

  // ---------- Runs ----------

  lemma StepKeeps(F: Fpu, code: seq<Code>, d: Device)
    requires InStep(d) && PlainCalls(code)
    ensures InStep(Step(F, code, d).dev)
    ensures d.AnyActive() && d.pc < 0x8000_0000 && d.pc < |code| ==>
              StackEffect(d, Decode(code[d.pc]), Step(F, code, d))
    ensures Step(F, code, d).status == Trapped ==>
              Step(F, code, d).dev.pc == d.pc && Step(F, code, d).dev.status == Trapped
  {
    assert d.Valid();
    hide Execute, Decode;
    if d.AnyActive() {
      var e := if d.pc >= 0x8000_0000 || d.pc >= |code| then Trap(d).dev else d.(insns := d.insns + 1);
      forall l | 0 <= l < |e.lanes| ensures LaneInStep(e, l) { assert LaneInStep(d, l); }
      if d.pc < 0x8000_0000 && d.pc < |code| {
        assert PlainCall(code, d.pc);
        assert e.AnyActive();
        ExecuteKeeps(F, e, Decode(code[d.pc]));
      }
    }
  }

  /** The device after n steps, all of which succeeded. */
  function StateAfter(F: Fpu, code: seq<Code>, d: Device, n: nat): (r: Option<Device>)
    requires d.Valid()
    ensures r.Some? ==> r.value.Valid()
  {
    if n == 0 then Some(d)
    else
      var e := StateAfter(F, code, d, n - 1);
      if e.None? || Step(F, code, e.value).status != Ok then None else Some(Step(F, code, e.value).dev)
  }

  /**
    Over every run: all lanes are active or none is, register 0 is zero in every lane, and all
    return stacks are the same, at most 16 deep.
   */
  lemma {:induction false} RunKeeps(F: Fpu, code: seq<Code>, d: Device, n: nat)
    requires InStep(d) && PlainCalls(code) && StateAfter(F, code, d, n).Some?
    ensures InStep(StateAfter(F, code, d, n).value) && |Stack(StateAfter(F, code, d, n).value)| <= MAX_RET
  {
    hide Step, InStep, PlainCalls;
    ShapeValid(d);
    if n > 0 {
      RunKeeps(F, code, d, n - 1);
      StepKeeps(F, code, StateAfter(F, code, d, n - 1).value);
    }
    StackBound(StateAfter(F, code, d, n).value);
  }

  lemma StackBound(d: Device)
    requires d.Valid()
    ensures |Stack(d)| <= MAX_RET
  {
  }

  lemma {:induction false} EarlierSteps(F: Fpu, code: seq<Code>, d: Device, m: nat, n: nat)
    requires d.Valid() && m <= n && StateAfter(F, code, d, n).Some?
    ensures StateAfter(F, code, d, m).Some?
    decreases n
  {
    hide Step;
    if m < n { EarlierSteps(F, code, d, m, n - 1); }
  }

  /** The run that ends the launch leaves the same shape behind. */
  lemma {:induction false} WholeRunKeeps(F: Fpu, code: seq<Code>, d: Device, max: nat)
    requires InStep(d) && PlainCalls(code)
    ensures InStep(Run(F, code, d, max).dev)
    decreases max - d.insns
  {
    hide Step, InStep, PlainCalls;
    ShapeValid(d);
    if d.AnyActive() && d.insns < max {
      StepKeeps(F, code, d);
      if Step(F, code, d).status == Ok { WholeRunKeeps(F, code, Step(F, code, d).dev, max); }
    }
  }

  /** How deep the stack is after n steps; -1 when the run does not get that far. */
  function Depth(F: Fpu, code: seq<Code>, d: Device, n: nat): int
    requires d.Valid()
  {
    var e := StateAfter(F, code, d, n);
    if e.None? then -1 else |Stack(e.value)|
  }

  /** While the stack stays at least h deep, its lowest h entries do not change. */
  lemma {:induction false} PrefixStays(F: Fpu, code: seq<Code>, d: Device, j: nat, k: nat, h: nat)
    requires InStep(d) && PlainCalls(code) && j <= k && StateAfter(F, code, d, k).Some?
    requires forall m :: j <= m <= k ==> h <= Depth(F, code, d, m)
    ensures StateAfter(F, code, d, j).Some? && h <= |Stack(StateAfter(F, code, d, j).value)|
    ensures h <= |Stack(StateAfter(F, code, d, k).value)|
    ensures Stack(StateAfter(F, code, d, j).value)[..h] == Stack(StateAfter(F, code, d, k).value)[..h]
    decreases k
  {
    hide Depth, Step, InStep, PlainCalls, Stack, StateAfter, Decode;
    ShapeValid(d);
    DepthAt(F, code, d, k);
    EarlierSteps(F, code, d, j, k);
    DepthAt(F, code, d, j);
    assert h <= Depth(F, code, d, j) && h <= Depth(F, code, d, k);
    if j < k {
      EarlierSteps(F, code, d, k - 1, k);
      PrefixStays(F, code, d, j, k - 1, h);
      RunKeeps(F, code, d, k - 1);
      var e := StateAfter(F, code, d, k - 1).value;
      NextState(F, code, d, k - 1);
      StepStack(F, code, e);
      DepthAt(F, code, d, k - 1);
    }
  }

  lemma DepthAt(F: Fpu, code: seq<Code>, d: Device, n: nat)
    requires d.Valid() && StateAfter(F, code, d, n).Some?
    ensures Depth(F, code, d, n) == |Stack(StateAfter(F, code, d, n).value)|
  {
    hide StateAfter;
  }

  /** A successful step leaves the stack, pushes one entry or pops one. */
  lemma StepStack(F: Fpu, code: seq<Code>, e: Device)
    requires InStep(e) && PlainCalls(code) && Step(F, code, e).status == Ok
    ensures var s, t := Stack(e), Stack(Step(F, code, e).dev);
            t == s || (|t| == |s| + 1 && t[..|s|] == s) || (|s| == |t| + 1 && s[..|t|] == t)
  {
    assert e.Valid();
    hide Execute, Decode, InStep, Stack;
    StepKeeps(F, code, e);
  }

  /**
    Each return resumes after its matching call: if step j is a call, step k returns, and in
    between the stack never shrinks below what the call pushed, then step k + 1 starts right
    after the call.
   */
  lemma ReturnMatchesCall(F: Fpu, code: seq<Code>, d: Device, j: nat, k: nat)
    requires InStep(d) && PlainCalls(code) && j < k && StateAfter(F, code, d, k + 1).Some?
    requires StateAfter(F, code, d, j).Some? && StateAfter(F, code, d, k).Some?
    requires var e := StateAfter(F, code, d, j).value; e.pc < |code| && Decode(code[e.pc]).op == CALL
    requires var e := StateAfter(F, code, d, k).value; e.pc < |code| && Decode(code[e.pc]).op == RET
    requires Depth(F, code, d, k) == Depth(F, code, d, j) + 1
    requires forall m :: j < m <= k ==> Depth(F, code, d, m) > Depth(F, code, d, j)
    ensures StateAfter(F, code, d, k + 1).value.pc == (StateAfter(F, code, d, j).value.pc + 1) % WORD
    ensures Stack(StateAfter(F, code, d, k + 1).value) == Stack(StateAfter(F, code, d, j).value)
  {
    hide Depth, Decode, InStep, PlainCalls, Stack, Step, StateAfter;
    ShapeValid(d);
    DepthAt(F, code, d, j);
    DepthAt(F, code, d, k);
    EarlierSteps(F, code, d, j + 1, k + 1);
    var call, ret := StateAfter(F, code, d, j).value, StateAfter(F, code, d, k).value;
    var h := |Stack(call)|;
    RunKeeps(F, code, d, j);
    RunKeeps(F, code, d, k);
    NextState(F, code, d, j);
    NextState(F, code, d, k);
    StepKeeps(F, code, call);
    StepKeeps(F, code, ret);
    PrefixStays(F, code, d, j + 1, k, h + 1);
    Returned(Stack(call), Stack(StateAfter(F, code, d, j + 1).value), Stack(ret),
             Stack(StateAfter(F, code, d, k + 1).value), (call.pc + 1) % WORD, StateAfter(F, code, d, k + 1).value.pc);
  }

  lemma Returned(before: seq<Word>, pushed: seq<Word>, top: seq<Word>, popped: seq<Word>, to: Word, pc: Word)
    requires pushed == before + [to] && popped + [pc] == top && |top| == |pushed|
    requires pushed[..|before| + 1] == top[..|before| + 1]
    ensures pc == to && popped == before
  {
    assert pushed[..|before| + 1] == pushed && top[..|before| + 1] == top;
    assert top[|before|] == pc && pushed[|before|] == to;
    assert popped == top[..|before|] && before == pushed[..|before|];
  }

  lemma NextState(F: Fpu, code: seq<Code>, d: Device, n: nat)
    requires d.Valid() && StateAfter(F, code, d, n).Some? && StateAfter(F, code, d, n + 1).Some?
    ensures var e := StateAfter(F, code, d, n).value;
            && Step(F, code, e).status == Ok && StateAfter(F, code, d, n + 1).value == Step(F, code, e).dev
            && e.AnyActive() && e.pc < 0x8000_0000 && e.pc < |code|
  {
    hide Execute, Decode;
    OkStep(F, code, StateAfter(F, code, d, n).value);
  }

  lemma OkStep(F: Fpu, code: seq<Code>, e: Device)
    requires e.Valid() && Step(F, code, e).status == Ok
    ensures e.AnyActive() && e.pc < 0x8000_0000 && e.pc < |code|
  {
  }

  /** A trap, however it comes about, leaves the program counter on the offending instruction. */
  lemma TrapStays(F: Fpu, code: seq<Code>, d: Device, n: nat)
    requires InStep(d) && PlainCalls(code) && StateAfter(F, code, d, n).Some?
    requires Step(F, code, StateAfter(F, code, d, n).value).status == Trapped
    ensures Step(F, code, StateAfter(F, code, d, n).value).dev.pc == StateAfter(F, code, d, n).value.pc
    ensures Step(F, code, StateAfter(F, code, d, n).value).dev.status == Trapped
  {
    hide InStep, PlainCalls, Step, StateAfter;
    ShapeValid(d);
    RunKeeps(F, code, d, n);
    StepKeeps(F, code, StateAfter(F, code, d, n).value);
  }
}
