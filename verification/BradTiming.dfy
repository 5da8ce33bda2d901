/** How long a pipeline takes: the exact cycle counts of a core, and the cycle in which it stops. */
module BradTiming {
  import opened Bits
  import opened BradCore
  import opened BradPipeline
  import opened BradRuns

  /** The number of taken branches among the first r instructions. */
  function Taken(g: Course, r: nat): nat {
    if r == 0 then 0 else Taken(g, r - 1) + if g.TakenAt(r - 1) then 1 else 0
  }

  /** The cycles counted for r executed instructions: a flush costs the filling of the stages before execution. */
  function Base(g: Course, r: nat): int { r + Taken(g, r) * (g.stage - 1) }

  lemma BaseSteps(g: Course, r: nat)
    ensures Base(g, 0) == 0
    ensures Base(g, r + 1) == Base(g, r) + if g.TakenAt(r) then g.stage else 1
  {
    hide Course.TakenAt;
    var t, e := Taken(g, r), g.stage - 1;
    assert (t + 1) * e == t * e + e;
  }

  /**
    The cycles counted behind that until the core stops: one fetch that fails, when the last
    instruction was a taken branch or there was none; otherwise those that the last instruction
    needs to leave the pipeline.
   */
  function Tail(model: Model, g: Course, r: nat): nat {
    if g.Since(r) == r then 1 else if model.ClearsExecStage() then model.ExecStage() else model.Depth()
  }

  // ---------- Invariant ----------

  /** Only instructions that have been executed are left, the youngest in stage x. */
  ghost predicate Trailing(model: Model, c: Core, g: Course, r: nat, x: int) {
    && !model.ClearsExecStage() && g.Since(r) < r && model.ExecStage() <= x < |c.stages| && c.stages[x].Some?
    && forall s :: 0 <= s < x ==> c.stages[s].None?
  }

  /** The stages that a core can have filled, and its counters, when r instructions have been executed. */
  ghost predicate Timed(model: Model, c: Core, g: Course, j: nat, k: nat, r: nat) {
    && |c.stages| == model.Depth() && c.hazards == Taken(g, r)
    && (model.ClearsExecStage() ==> forall s :: model.ExecStage() <= s < |c.stages| ==> c.stages[s].None?)
    && (j < k ==> c.cycles == Base(g, r) + k)
    && (j == k && !c.drain ==> c.cycles == Base(g, r) && g.Since(r) == r && AllEmpty(c.stages))
    && (j == k && c.drain && c.running ==> Trailing(model, c, g, r, c.cycles - Base(g, r)))
    && (!c.running ==> c.cycles == Base(g, r) + Tail(model, g, r))
  }

  lemma FreshTimed(model: Model, m: Machine, entry: Word)
    ensures Timed(model, Fresh(model, m, entry), CourseOf(model, m, entry), 0, 0, 0)
  {
  }

  /** A window is what the stages before execution show it to be. */
  lemma WindowShows(c: Core, g: Course, j: nat, k: nat, r: nat)
    requires Window(c, g, j, k, r)
    ensures j <= k <= g.stage < |c.stages| && (j < k ==> c.stages[j].Some? && c.stages[k - 1].Some?)
    ensures j == k <==> forall s :: 0 <= s < g.stage ==> c.stages[s].None?
    ensures forall s :: 0 <= s < g.stage && c.stages[s].Some? ==> j <= s < k
  {
    hide Fetch, Back, Course.Want;
  }

  /** The second half of a cycle leaves all stages but the first as they are. */
  lemma FetchPhaseStages(c: Core)
    requires |c.stages| > 0 && c.stages[0].None? && c.running
    ensures var f := FetchPhase(c);
            && |f.stages| == |c.stages| && f.cycles == c.cycles + 1 && f.hazards == c.hazards
            && (forall s :: 1 <= s < |c.stages| ==> f.stages[s] == c.stages[s])
            && (f.stages[0].Some? ==> !f.drain) && (f.stages[0].None? ==> f.drain)
            && (c.drain ==> f.drain) && (!f.running <==> f.drain && AllEmpty(f.stages))
  {
    hide Fetch;
  }

  /** Without execution every instruction moves on by one stage, and one more may be fetched. */
  lemma IdleStages(model: Model, c: Core)
    requires model.ExecStage() < |c.stages| && c.running && !Retires(model, c)
    ensures var d := Cycle(model, c);
            && |d.stages| == |c.stages| && d.cycles == c.cycles + 1 && d.hazards == c.hazards
            && (forall s :: 1 <= s < |c.stages| ==> d.stages[s] == c.stages[s - 1])
            && (d.stages[0].Some? <==> !d.drain) && (c.drain ==> d.drain)
            && (!d.running <==> d.drain && AllEmpty(d.stages))
  {
    hide Fetch, Execute, FetchPhase;
    FetchPhaseStages(c.(stages := Advance(c.stages)));
  }

  /** Where the oldest instruction is. */
  lemma WindowEnds(c: Core, g: Course, j: nat, k: nat, r: nat, end: nat)
    requires Window(c, g, j, k, r) && 0 < end <= g.stage
    requires c.stages[end - 1].Some? && forall s :: end <= s < g.stage ==> c.stages[s].None?
    ensures j < k == end
  {
    WindowShows(c, g, j, k, r);
    hide Window;
  }

  /** A cycle without execution. */
  lemma IdleTimed(model: Model, c: Core, g: Course, j: nat, k: nat, r: nat, j': nat, k': nat)
    requires g.stage == model.ExecStage() && InFlight(c, g, j, k, r) && c.running && !Retires(model, c)
    requires Timed(model, c, g, j, k, r) && InFlight(Cycle(model, c), g, j', k', r)
    ensures Timed(model, Cycle(model, c), g, j', k', r)
  {
    hide Fetch, Execute, Window, Base, Taken, Course.Since, Cycle;
    WindowShows(c, g, j, k, r);
    var d := Cycle(model, c);
    IdleStages(model, c);
    WindowShows(d, g, j', k', r);
    if j < k {
      assert d.stages[k].Some?;
      WindowEnds(d, g, j', k', r, k + 1);
    } else if !c.drain {
      if !d.drain { WindowEnds(d, g, j', k', r, 1); }
    } else {
      var x := c.cycles - Base(g, r);
      if x + 1 < |c.stages| { assert d.stages[x + 1] == c.stages[x]; }
    }
  }

  /** A cycle that executes a taken branch. */
  lemma TakenTimed(model: Model, c: Core, g: Course, j: nat, k: nat, r: nat)
    requires g.stage == model.ExecStage() && g.lite == model.Lite()
    requires InFlight(c, g, j, k, r) && c.running && Retires(model, c) && g.FreshAt(r) && g.TakenAt(r)
    requires Timed(model, c, g, j, k, r)
    ensures Timed(model, Cycle(model, c), g, 0, 0, r + 1)
  {
    hide Fetch, Execute, Base, Course.FreshAt, Window;
    OldestIsNext(model, c, g, j, k, r);
    BaseSteps(g, r);
  }

  lemma AllEmptyWithFirst(stages: seq<Option<Fetched>>, e: nat)
    requires e <= |stages|
    requires (forall s :: 0 <= s < e ==> stages[s].None?) && forall s :: e <= s < |stages| ==> stages[s].None?
    ensures AllEmpty(stages)
  {
  }

  /** So does every instruction when one executes that is no taken branch, but for the execute stage. */
  lemma OnwardStages(model: Model, c: Core, g: Course, j: nat, k: nat, r: nat)
    requires g.stage == model.ExecStage() && g.lite == model.Lite()
    requires InFlight(c, g, j, k, r) && c.running && Retires(model, c) && g.FreshAt(r) && !g.TakenAt(r)
    ensures var d, e := Cycle(model, c), model.ExecStage();
            && |d.stages| == |c.stages| && d.cycles == c.cycles + 1 && d.hazards == c.hazards
            && (forall s :: 1 <= s < |c.stages| && s != e ==> d.stages[s] == c.stages[s - 1])
            && (d.stages[e].None? <==> model.ClearsExecStage())
            && (d.stages[0].Some? <==> !d.drain) && (c.drain ==> d.drain)
            && (!d.running <==> d.drain && AllEmpty(d.stages))
  {
    hide Fetch, Execute, FetchPhase, Window, Course.FreshAt;
    OldestIsNext(model, c, g, j, k, r);
    WindowShows(c, g, j, k, r);
    var f, e := c.stages[g.stage - 1].value, model.ExecStage();
    NextState(g, r, f.insn);
    var o := Execute(model.Lite(), c.m, f.insn, f.pc);
    var a := Advance(c.stages);
    FetchPhaseStages(c.(m := o.m, stages := if model.ClearsExecStage() then a[e := None] else a));
  }

  /** A cycle that executes any other instruction. */
  lemma OnwardTimed(model: Model, c: Core, g: Course, j: nat, k: nat, r: nat, j': nat, k': nat)
    requires g.stage == model.ExecStage() && g.lite == model.Lite()
    requires InFlight(c, g, j, k, r) && c.running && Retires(model, c) && g.FreshAt(r) && !g.TakenAt(r)
    requires Timed(model, c, g, j, k, r) && InFlight(Cycle(model, c), g, j', k', r + 1)
    ensures Timed(model, Cycle(model, c), g, j', k', r + 1)
  {
    hide Fetch, Execute, Window, Base, Course.FreshAt, Course.TakenAt, Cycle;
    OldestIsNext(model, c, g, j, k, r);
    OnwardStages(model, c, g, j, k, r);
    WindowShows(c, g, j, k, r);
    BaseSteps(g, r);
    var d, e := Cycle(model, c), g.stage;
    WindowShows(d, g, j', k', r + 1);
    if j' < k' {
      assert d.stages[e - 1].Some?;
      WindowEnds(d, g, j', k', r + 1, e);
    } else if model.ClearsExecStage() {
      AllEmptyWithFirst(d.stages, e);
    }
  }

  lemma TimedCycle(model: Model, c: Core, g: Course, j: nat, k: nat, r: nat) returns (j': nat, k': nat)
    requires g.stage == model.ExecStage() && g.lite == model.Lite() && c.running
    requires InFlight(c, g, j, k, r) && Timed(model, c, g, j, k, r) && (Retires(model, c) ==> g.FreshAt(r))
    ensures var r' := if Retires(model, c) then r + 1 else r;
            InFlight(Cycle(model, c), g, j', k', r') && Timed(model, Cycle(model, c), g, j', k', r')
  {
    hide InFlight, Cycle, Course.FreshAt, Course.TakenAt, Base, Tail, Trailing;
    if !Retires(model, c) {
      j', k' := CycleRefines(model, c, g, j, k, r);
      IdleTimed(model, c, g, j, k, r, j', k');
    } else if g.TakenAt(r) {
      j', k' := 0, 0;
      TakenCycle(model, c, g, j, k, r);
      TakenTimed(model, c, g, j, k, r);
    } else {
      j', k' := OnwardCycle(model, c, g, j, k, r);
      OnwardTimed(model, c, g, j, k, r, j', k');
    }
  }

  /** A cycle is either counted or a hazard. */
  lemma CountedOrHazard(model: Model, c: Core)
    requires |c.stages| > model.ExecStage()
    ensures Cycle(model, c).cycles + Cycle(model, c).hazards == c.cycles + c.hazards + 1
  {
    hide Fetch, Execute;
  }

  // ---------- Whole runs ----------

  lemma {:induction false} RunTimed(model: Model, m: Machine, entry: Word, n: nat) returns (j: nat, k: nat)
    requires forall i: nat :: i < RetiredIn(model, m, entry, n) ==> CourseOf(model, m, entry).FreshAt(i)
    ensures var c, r := Cycles(model, Fresh(model, m, entry), n), RetiredIn(model, m, entry, n);
            && r >= 0 && InFlight(c, CourseOf(model, m, entry), j, k, r)
            && Timed(model, c, CourseOf(model, m, entry), j, k, r)
            && c.cycles + c.hazards <= n && (c.running ==> c.cycles + c.hazards == n)
  {
    hide Fetch, Execute, Cycle, InFlight, Timed, Course.FreshAt;
    if n == 0 {
      j, k := 0, 0;
      FreshInFlight(model, m, entry);
      FreshTimed(model, m, entry);
    } else {
      var c := Cycles(model, Fresh(model, m, entry), n - 1);
      if c.running {
        CycleRetires(model, c);
        CountedOrHazard(model, c);
      }
      j, k := RunTimed(model, m, entry, n - 1);
      if c.running {
        j, k := TimedCycle(model, c, CourseOf(model, m, entry), j, k, RetiredIn(model, m, entry, n - 1));
      }
    }
  }

  lemma ExecuteCountsTaken(lite: bool, m: Machine, d: Insn, pc: Word)
    ensures var o := Execute(lite, m, d, pc);
            o.m.branchesTaken == m.branchesTaken + if o.taken then 1 else 0
  {
    hide Alu, Read32, Write32;
  }

  /** The sequential machine's own counter of taken branches. */
  lemma {:induction false} TakenCounter(g: Course, r: nat)
    ensures g.At(r).m.branchesTaken == g.start.m.branchesTaken + Taken(g, r)
  {
    hide Fetch, Execute;
    if r > 0 {
      TakenCounter(g, r - 1);
      var s := g.At(r - 1);
      if Fetch(s.m.mem, s.pc).Some? { ExecuteCountsTaken(g.lite, s.m, Fetch(s.m.mem, s.pc).value, s.pc); }
    }
  }

  lemma TimedCounts(model: Model, c: Core, g: Course, j: nat, k: nat, r: nat)
    requires InFlight(c, g, j, k, r) && Timed(model, c, g, j, k, r) && g.stage == model.ExecStage()
    ensures c.hazards == Taken(g, r) && c.m == g.At(r).m
    ensures !c.running ==> c.cycles == r + Taken(g, r) * (model.ExecStage() - 1) + Tail(model, g, r)
    ensures !c.running ==> c.cycles + c.hazards == StopTime(model, g, r)
  {
    hide Window, Trailing, Tail, Course.Since, Taken, Course.At;
    FillPerBranch(Taken(g, r), model.ExecStage());
  }

  /**
    The counters of a core, as long as what it retired was fresh: as many hazards as taken
    branches, and once it has stopped, the exact number of counted cycles.
   */
  lemma CountersExact(model: Model, m: Machine, entry: Word, n: nat)
    requires forall i: nat :: i < RetiredIn(model, m, entry, n) ==> CourseOf(model, m, entry).FreshAt(i)
    ensures var c, r := Cycles(model, Fresh(model, m, entry), n), RetiredIn(model, m, entry, n);
            var g, taken := CourseOf(model, m, entry), c.m.branchesTaken - m.branchesTaken;
            && r >= 0 && c.hazards == taken
            && (!c.running ==> c.cycles == r + taken * (model.ExecStage() - 1) + Tail(model, g, r))
  {
    hide Cycles, Course.FreshAt, InFlight, Timed, Tail, Taken, RetiredIn, Course.At;
    var c, g, r := Cycles(model, Fresh(model, m, entry), n), CourseOf(model, m, entry), RetiredIn(model, m, entry, n);
    var j, k := RunTimed(model, m, entry, n);
    TimedCounts(model, c, g, j, k, r);
    TakenCounter(g, r);
  }

  /** The cycles after which a core has stopped, for a program that halts after so many instructions. */
  function StopTime(model: Model, g: Course, halt: nat): int {
    halt + Taken(g, halt) * model.ExecStage() + Tail(model, g, halt)
  }

  /** The sequential machine halts at that instruction and not before. */
  ghost predicate HaltsAt(g: Course, halt: nat) {
    Halted(g.At(halt)) && forall i: nat :: i < halt ==> !Halted(g.At(i))
  }

  lemma StoppedAt(model: Model, m: Machine, entry: Word, halt: nat, n: nat)
    requires FreshRun(CourseOf(model, m, entry)) && HaltsAt(CourseOf(model, m, entry), halt)
    ensures var c := Cycles(model, Fresh(model, m, entry), n);
            && c.cycles + c.hazards <= n && (c.running ==> c.cycles + c.hazards == n)
            && (!c.running ==> RetiredIn(model, m, entry, n) == halt
                               && c.cycles + c.hazards == StopTime(model, CourseOf(model, m, entry), halt))
  {
    hide Cycles, Course.FreshAt, InFlight, Timed, Halted, StopTime, Tail, Taken, RetiredIn, IsaRun;
    var c, g := Cycles(model, Fresh(model, m, entry), n), CourseOf(model, m, entry);
    var j, k := RunTimed(model, m, entry, n);
    var r := RetiredIn(model, m, entry, n);
    if !c.running {
      StoppedIsHalted(c, g, j, k, r);
      var j1, k1 := BudgetShrinks(model, m, entry, halt, n);
      assert r == halt;
      TimedCounts(model, c, g, j, k, r);
    }
  }

  lemma FillPerBranch(t: int, e: int)
    ensures t * (e - 1) + t == t * e
  {
  }

  lemma {:induction false} RunningBefore(model: Model, m: Machine, entry: Word, halt: nat, n: nat, end: nat)
    requires FreshRun(CourseOf(model, m, entry)) && HaltsAt(CourseOf(model, m, entry), halt)
    requires n <= end && Cycles(model, Fresh(model, m, entry), n).running
    requires !Cycles(model, Fresh(model, m, entry), end).running
    ensures n < StopTime(model, CourseOf(model, m, entry), halt)
    decreases end - n
  {
    hide FreshRun, HaltsAt, StopTime, Cycle;
    if Cycles(model, Fresh(model, m, entry), n + 1).running {
      RunningBefore(model, m, entry, halt, n + 1, end);
    } else {
      CountedOrHazard(model, Cycles(model, Fresh(model, m, entry), n));
      StoppedAt(model, m, entry, halt, n);
      StoppedAt(model, m, entry, halt, n + 1);
    }
  }

  /**
    A core stops in exactly one cycle: after one cycle per instruction, as many as there are
    stages up to the execute stage per taken branch, and the tail; with the sequential machine's
    registers and memory, and with exact counters.
   */
  lemma StopsExactly(model: Model, m: Machine, entry: Word, halt: nat, n: nat)
    requires FreshRun(CourseOf(model, m, entry)) && HaltsAt(CourseOf(model, m, entry), halt)
    ensures var c, g := Cycles(model, Fresh(model, m, entry), n), CourseOf(model, m, entry);
            && (c.running <==> n < StopTime(model, g, halt))
            && (!c.running ==>
                  && c.m == g.At(halt).m && c.hazards == Taken(g, halt)
                  && c.cycles == StopTime(model, g, halt) - Taken(g, halt))
  {
    hide Cycles, FreshRun, StopTime, IsaRun, Course.FreshAt;
    var c, g := Cycles(model, Fresh(model, m, entry), n), CourseOf(model, m, entry);
    StoppedAt(model, m, entry, halt, n);
    if c.running {
      PipelineStops(model, m, entry, halt);
      StoppedStays(model, m, entry, n, PATIENCE * (halt + 1));
      RunningBefore(model, m, entry, halt, n, PATIENCE * (halt + 1));
    } else {
      PipelineRefinesIsa(model, m, entry, n);
      AllInstructionsFresh(g);
      CountersExact(model, m, entry, n);
      TakenCounter(g, halt);
    }
  }

  lemma AllInstructionsFresh(g: Course)
    requires FreshRun(g)
    ensures forall i: nat :: g.FreshAt(i)
  {
    hide Course.FreshAt;
  }

  lemma {:induction false} StoppedStays(model: Model, m: Machine, entry: Word, n: nat, end: nat)
    requires !Cycles(model, Fresh(model, m, entry), end).running
    ensures Cycles(model, Fresh(model, m, entry), n).running ==> n < end
    decreases n
  {
    hide Cycle;
    if n > end { StoppedStays(model, m, entry, n - 1, end); }
  }
}
