/**
  The pipelines refine the sequential instruction set, through flushes and the final drain,
  exactly when no instruction has changed between being fetched and being executed.
 */
module BradPipeline {
  import opened Bits
  import opened BradCore

  // ---------- Addresses ----------

  /** The address n instructions before pc, in 32-bit arithmetic. */
  function Back(pc: Word, n: int): Word { (pc - 4 * n) % WORD }

  lemma BackLaws(pc: Word, n: int, i: int)
    ensures Back(pc, 0) == pc
    ensures Back((pc + 4) % WORD, n + 1) == Back(pc, n)
    ensures (Back(pc, n) + 4 * i) % WORD == Back(pc, n - i)
  {
  }

  // ---------- What a pipeline has fetched ----------

  /** A sequential run, and the stage in which the pipeline under consideration executes. */
  datatype Course = Course(lite: bool, start: Isa, stage: nat) {
    function At(n: nat): Isa { IsaRun(lite, start, n) }

    /** Instruction n is a taken branch. */
    predicate TakenAt(n: nat) {
      var s := At(n);
      var d := Fetch(s.m.mem, s.pc);
      d.Some? && Execute(lite, s.m, d.value, s.pc).taken
    }

    /** The number of instructions up to and including the last taken branch before instruction r. */
    function Since(r: nat): (n: nat)
      ensures n <= r
    {
      if r == 0 then 0 else if TakenAt(r - 1) then r else Since(r - 1)
    }

    /**
      How many instructions have been executed when instruction i is fetched, as far as
      instruction r can tell: all but the stage - 1 before it, but at least those up to the last
      taken branch, which empties the pipeline.
     */
    function Seen(r: nat, i: nat): (n: nat)
      ensures n >= Since(r) && n > i - stage
      ensures n == Since(r) || n == i - stage + 1
    {
      if i - stage + 1 > Since(r) then i - stage + 1 else Since(r)
    }

    /** What is fetched for instruction i, if no branch is taken from instruction r to there. */
    function Want(r: nat, i: nat): Option<Insn> {
      Fetch(At(Seen(r, i)).m.mem, (At(r).pc + 4 * (i - r)) % WORD)
    }

    /** No store between the fetch and the execution of instruction n has changed it. */
    predicate FreshAt(n: nat) {
      Fetch(At(Seen(n, n)).m.mem, At(n).pc) == Fetch(At(n).m.mem, At(n).pc)
    }
  }

  ghost predicate FreshRun(g: Course) {
    forall n: nat :: g.FreshAt(n)
  }

  function CourseOf(model: Model, m: Machine, entry: Word): Course {
    Course(model.Lite(), Isa(m, entry), model.ExecStage())
  }

  lemma WantNow(g: Course, r: nat, i: nat)
    requires r <= i < r + g.stage && (g.Since(r) == r || i == r + g.stage - 1)
    ensures g.Want(r, i) == Fetch(g.At(r).m.mem, (g.At(r).pc + 4 * (i - r)) % WORD)
  {
    hide Fetch, Course.At;
  }

  /** Executing an instruction that is no taken branch leaves what is wanted further on. */
  lemma WantStays(g: Course, r: nat, i: nat)
    requires !g.TakenAt(r) && Fetch(g.At(r).m.mem, g.At(r).pc).Some? && r < i
    ensures g.Want(r + 1, i) == g.Want(r, i) && g.Since(r + 1) == g.Since(r)
  {
    hide Fetch, Execute;
    assert g.At(r + 1).pc == (g.At(r).pc + 4) % WORD;
    assert (g.At(r + 1).pc + 4 * (i - (r + 1))) % WORD == (g.At(r).pc + 4 * (i - r)) % WORD;
  }

  // ---------- Invariant ----------

  /**
    The instructions not yet executed are those in stages [j, k) below the execute stage: they
    sit on consecutive addresses that end just before the fetch address, and the one in stage
    k - 1 is instruction r of the run.
   */
  ghost predicate Window(c: Core, g: Course, j: nat, k: nat, r: nat) {
    && j <= k <= g.stage < |c.stages|
    && (forall s :: 0 <= s < g.stage ==> (c.stages[s].Some? <==> j <= s < k))
    && (forall s :: j <= s < k ==>
          && c.stages[s].value.pc == Back(c.pc, s - j + 1)
          && g.Want(r, r + k - 1 - s) == Some(c.stages[s].value.insn))
    && (c.drain ==> Fetch(c.m.mem, c.pc).None?)
  }

  /**
    A core between two cycles, with r instructions executed: stages younger than the window are
    empty only while draining, and the window is short only after a flush or in the drain.
   */
  ghost predicate InFlight(c: Core, g: Course, j: nat, k: nat, r: nat) {
    && Window(c, g, j, k, r)
    && (0 < j ==> c.drain)
    && (!c.running ==> c.drain && j == k)
    && (k < g.stage && (j < k || !c.drain) ==> g.Since(r) == r)
    && Abs(c, j, k) == g.At(r)
  }

  /** The sequential state: the core's machine, at the oldest instruction not yet executed. */
  function Abs(c: Core, j: nat, k: nat): Isa {
    Isa(c.m, Back(c.pc, k - j))
  }

  // ---------- One cycle ----------

  lemma ExecuteKeeps(lite: bool, m: Machine, d: Insn, pc: Word)
    ensures var o := Execute(lite, m, d, pc);
            |o.m.mem| == |m.mem| && |o.m.regs| == |m.regs| && o.m.retired == m.retired + 1
  {
    hide Alu, Read32;
  }

  lemma FetchPhaseKeeps(c: Core, g: Course, j: nat, k: nat, r: nat) returns (j': nat, k': nat)
    requires Window(c, g, j, k, r) && 1 <= g.stage && c.stages[0].None? && c.running && (1 < j ==> c.drain)
    requires 1 <= j || (j == 0 && k == 0)
    requires !c.drain ==> g.Want(r, r + (if k == 0 then 1 else k) - 1) == Fetch(c.m.mem, c.pc)
    ensures var f := FetchPhase(c);
            && Window(f, g, j', k', r) && (0 < j' ==> f.drain) && (!f.running ==> f.drain && j' == k')
            && Abs(f, j', k') == Abs(c, j, k)
    ensures j < k ==> j' < k' == k
    ensures j == k ==> k' <= 1
    ensures j == k && !FetchPhase(c).drain ==> j' < k'
    ensures c.drain ==> (j' < k' <==> j < k) && FetchPhase(c).stages == c.stages && FetchPhase(c).drain
    ensures j' == k' ==> FetchPhase(c).drain
  {
    hide Fetch, Back, Course.Want;
    var f := FetchPhase(c);
    if !c.drain && Fetch(c.m.mem, c.pc).Some? {
      j', k' := 0, if k == 0 then 1 else k;
      BackLaws(c.pc, 0, 0);
      BackLaws(c.pc, k - j, 0);
      forall s | 0 < s < k' ensures f.stages[s].value.pc == Back(f.pc, s + 1) {
        BackLaws(c.pc, s - j + 1, 0);
      }
      assert f.stages[0].Some?;
    } else {
      j', k' := if j == k then 0 else j, if j == k then 0 else k;
      assert f.stages == c.stages;
      assert j < k ==> f.stages[j].Some?;
    }
  }

  lemma AdvanceWindow(c: Core, g: Course, j: nat, k: nat, r: nat) returns (j': nat, k': nat)
    requires Window(c, g, j, k, r) && (0 < j ==> c.drain) && 1 <= g.stage && c.stages[g.stage - 1].None?
    ensures var a := c.(stages := Advance(c.stages));
            && Window(a, g, j', k', r) && (1 < j' ==> c.drain)
            && (1 <= j' || (j' == 0 && k' == 0)) && Abs(a, j', k') == Abs(c, j, k)
            && (j < k ==> j' == j + 1 && k' == k + 1) && (j == k ==> j' == k' == 0)
  {
    hide Fetch, Back, Course.Want;
    var a := Advance(c.stages);
    assert forall s :: 1 <= s < |a| ==> a[s] == c.stages[s - 1];
    if j == k {
      j', k' := 0, 0;
    } else {
      j', k' := j + 1, k + 1;
      forall s | j' <= s < k'
        ensures a[s].value.pc == Back(c.pc, s - j' + 1) && g.Want(r, r + k' - 1 - s) == Some(a[s].value.insn)
      {
        assert c.stages[s - 1].value.pc == Back(c.pc, s - 1 - j + 1);
      }
    }
  }

  /** The window after its oldest instruction has left: a holds the same stages, one further on. */
  lemma ShiftWindow(c: Core, g: Course, j: nat, r: nat, a: Core) returns (j': nat, k': nat)
    requires Window(c, g, j, g.stage, r) && j < g.stage && (0 < j ==> c.drain)
    requires !g.TakenAt(r) && Fetch(g.At(r).m.mem, g.At(r).pc).Some?
    requires |a.stages| == |c.stages| && a.pc == c.pc && a.drain == c.drain && |a.m.mem| == |c.m.mem|
    requires a.stages[0].None? && forall s :: 1 <= s < g.stage ==> a.stages[s] == c.stages[s - 1]
    ensures Window(a, g, j', k', r + 1) && (1 < j' ==> a.drain) && (1 <= j' || (j' == 0 && k' == 0))
    ensures Abs(a, j', k') == Isa(a.m, (Abs(c, j, g.stage).pc + 4) % WORD)
    ensures if j + 1 == g.stage then j' == k' == 0 else j' == j + 1 && k' == g.stage
  {
    hide Fetch, Back, Course.Want, Course.TakenAt;
    FetchNeedsSizeOnly(c.m.mem, a.m.mem, c.pc);
    BackLaws(c.pc, g.stage - j, 1);
    if j + 1 == g.stage { j', k' := 0, 0; } else { j', k' := j + 1, g.stage; }
    forall s | j' <= s < k' ensures g.Want(r + 1, r + 1 + k' - 1 - s) == Some(a.stages[s].value.insn) {
      WantStays(g, r, r + g.stage - s);
      assert a.stages[s] == c.stages[s - 1];
    }
  }

  lemma FetchNeedsSizeOnly(mem: seq<Byte>, after: seq<Byte>, pc: Word)
    requires |mem| == |after|
    ensures Fetch(mem, pc).None? <==> Fetch(after, pc).None?
  {
  }

  predicate Retires(model: Model, c: Core)
    requires model.ExecStage() <= |c.stages|
  {
    c.stages[model.ExecStage() - 1].Some?
  }

  lemma IdleCycle(model: Model, c: Core, g: Course, j: nat, k: nat, r: nat) returns (j': nat, k': nat)
    requires g.stage == model.ExecStage() && InFlight(c, g, j, k, r) && c.running && !Retires(model, c)
    ensures InFlight(Cycle(model, c), g, j', k', r)
    ensures j < k ==> j' < k' == k + 1
    ensures j == k && !Cycle(model, c).drain ==> j' < k'
    ensures j == k && c.drain ==> j' == k' && Cycle(model, c).stages == Advance(c.stages)
  {
    hide Fetch, Execute, FetchPhase, Back, Course.Want;
    var j1, k1 := AdvanceWindow(c, g, j, k, r);
    if !c.drain {
      WantNow(g, r, r + k);
      FetchAddress(c, g, j, k, r);
    }
    j', k' := FetchPhaseKeeps(c.(stages := Advance(c.stages)), g, j1, k1, r);
  }

  /** The fetch address follows the window. */
  lemma FetchAddress(c: Core, g: Course, j: nat, k: nat, r: nat)
    requires j <= k && Abs(c, j, k) == g.At(r)
    ensures (g.At(r).pc + 4 * (k - j)) % WORD == c.pc
  {
    hide Course.At;
    BackLaws(c.pc, k - j, k - j);
  }

  /** The oldest instruction, if it is fresh, is the one that the sequential machine executes. */
  lemma OldestIsNext(model: Model, c: Core, g: Course, j: nat, k: nat, r: nat)
    requires g.stage == model.ExecStage() && InFlight(c, g, j, k, r) && Retires(model, c)
    ensures k == g.stage && j < k && g.Seen(r, r) <= r
    ensures var f := c.stages[g.stage - 1].value;
            && f.pc == g.At(r).pc && Fetch(g.At(g.Seen(r, r)).m.mem, g.At(r).pc) == Some(f.insn)
            && Fetch(g.At(r).m.mem, g.At(r).pc).Some?
            && (Fetch(c.m.mem, f.pc) == Some(f.insn) <==> g.FreshAt(r))
  {
    hide Fetch, Back, Course.At;
    assert g.Want(r, r) == Some(c.stages[g.stage - 1].value.insn);
    assert (g.At(r).pc + 4 * (r - r)) % WORD == g.At(r).pc;
    SameSize(g, g.Seen(r, r), r);
  }

  lemma {:induction false} RunKeepsSize(lite: bool, s: Isa, n: nat)
    ensures |IsaRun(lite, s, n).m.mem| == |s.m.mem|
  {
    hide Execute;
    if n > 0 {
      RunKeepsSize(lite, s, n - 1);
      var t := IsaRun(lite, s, n - 1);
      if Fetch(t.m.mem, t.pc).Some? { ExecuteKeeps(lite, t.m, Fetch(t.m.mem, t.pc).value, t.pc); }
    }
  }

  lemma SameSize(g: Course, q: nat, r: nat)
    ensures Fetch(g.At(q).m.mem, g.At(r).pc).Some? <==> Fetch(g.At(r).m.mem, g.At(r).pc).Some?
  {
    hide IsaRun;
    RunKeepsSize(g.lite, g.start, q);
    RunKeepsSize(g.lite, g.start, r);
    FetchNeedsSizeOnly(g.At(q).m.mem, g.At(r).m.mem, g.At(r).pc);
  }

  lemma RetiringCycle(model: Model, c: Core, g: Course, j: nat, k: nat, r: nat) returns (j': nat, k': nat)
    requires g.stage == model.ExecStage() && g.lite == model.Lite()
    requires InFlight(c, g, j, k, r) && c.running && Retires(model, c) && g.FreshAt(r)
    ensures InFlight(Cycle(model, c), g, j', k', r + 1)
  {
    hide Fetch, Execute, FetchPhase, Back, Course.Want, Course.FreshAt, IsaRun;
    OldestIsNext(model, c, g, j, k, r);
    if g.TakenAt(r) {
      j', k' := 0, 0;
      TakenCycle(model, c, g, j, k, r);
    } else {
      j', k' := OnwardCycle(model, c, g, j, k, r);
    }
  }

  /** A taken branch empties the pipeline; fetching starts again at its target. */
  lemma TakenCycle(model: Model, c: Core, g: Course, j: nat, k: nat, r: nat)
    requires g.stage == model.ExecStage() && g.lite == model.Lite()
    requires InFlight(c, g, j, k, r) && c.running && Retires(model, c) && g.FreshAt(r) && g.TakenAt(r)
    ensures InFlight(Cycle(model, c), g, 0, 0, r + 1)
  {
    hide Fetch, Execute, FetchPhase, Back, Course.Want, Course.FreshAt, IsaRun;
    OldestIsNext(model, c, g, j, k, r);
    var f := c.stages[g.stage - 1].value;
    NextState(g, r, f.insn);
    BackLaws(Execute(model.Lite(), c.m, f.insn, f.pc).target, 0, 0);
  }

  /** Otherwise the window moves on and one more instruction is fetched. */
  lemma OnwardCycle(model: Model, c: Core, g: Course, j: nat, k: nat, r: nat) returns (j': nat, k': nat)
    requires g.stage == model.ExecStage() && g.lite == model.Lite()
    requires InFlight(c, g, j, k, r) && c.running && Retires(model, c) && g.FreshAt(r) && !g.TakenAt(r)
    ensures InFlight(Cycle(model, c), g, j', k', r + 1)
  {
    hide Fetch, Execute, FetchPhase, Back, Course.Want, Course.FreshAt, IsaRun;
    OldestIsNext(model, c, g, j, k, r);
    var e, f := g.stage, c.stages[g.stage - 1].value;
    var o := Execute(model.Lite(), c.m, f.insn, f.pc);
    NextState(g, r, f.insn);
    ExecuteKeeps(model.Lite(), c.m, f.insn, f.pc);
    var a := c.(m := o.m,
                stages := if model.ClearsExecStage() then Advance(c.stages)[e := None] else Advance(c.stages));
    var j1, k1 := ShiftWindow(c, g, j, r, a);
    assert Abs(a, j1, k1) == g.At(r + 1) && g.Since(r + 1) == g.Since(r);
    hide Course.At;
    if !c.drain {
      WantNow(g, r + 1, r + e);
      FetchAddress(a, g, j1, k1, r + 1);
    }
    j', k' := FetchPhaseKeeps(a, g, j1, k1, r + 1);
  }

  lemma NextState(g: Course, r: nat, d: Insn)
    requires Fetch(g.At(r).m.mem, g.At(r).pc) == Some(d)
    ensures var o := Execute(g.lite, g.At(r).m, d, g.At(r).pc);
            g.At(r + 1) == Isa(o.m, if o.taken then o.target else (g.At(r).pc + 4) % WORD)
  {
    hide Fetch, Execute;
  }

  /** One cycle is one sequential step when an instruction executes, and none otherwise. */
  lemma CycleRefines(model: Model, c: Core, g: Course, j: nat, k: nat, r: nat) returns (j': nat, k': nat)
    requires g.stage == model.ExecStage() && g.lite == model.Lite()
    requires InFlight(c, g, j, k, r) && c.running && (Retires(model, c) ==> g.FreshAt(r))
    ensures InFlight(Cycle(model, c), g, j', k', if Retires(model, c) then r + 1 else r)
    ensures Retires(model, c) ==> j < k && Fetch(g.At(r).m.mem, g.At(r).pc).Some?
    ensures !Retires(model, c) && j < k ==> j' < k' == k + 1
    ensures j == k && !Cycle(model, c).drain ==> j' < k'
    ensures j == k && c.drain ==> j' == k' && Cycle(model, c).stages == Advance(c.stages)
  {
    hide Fetch, Execute, Cycle, Back, Course.Want, Course.FreshAt, Course.At;
    if Retires(model, c) {
      OldestIsNext(model, c, g, j, k, r);
      j', k' := RetiringCycle(model, c, g, j, k, r);
    } else {
      j', k' := IdleCycle(model, c, g, j, k, r);
    }
  }
}
