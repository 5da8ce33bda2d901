/** Whole runs of the pipelines: safety, staleness, progress, and agreement between the models. */
module BradRuns {
  import opened Bits
  import opened BradCore
  import opened BradPipeline

  /** The number of instructions that the core has retired in its first n cycles. */
  function RetiredIn(model: Model, m: Machine, entry: Word, n: nat): int {
    Cycles(model, Fresh(model, m, entry), n).m.retired - m.retired
  }

  /** A retiring core executes what memory holds at that moment. */
  predicate RetiresFresh(model: Model, c: Core)
    requires model.ExecStage() <= |c.stages| && Retires(model, c)
  {
    var f := c.stages[model.ExecStage() - 1].value;
    Fetch(c.m.mem, f.pc) == Some(f.insn)
  }

  /** After any number of cycles, every instruction that was retired was retired fresh. */
  ghost predicate NeverStale(model: Model, m: Machine, entry: Word) {
    forall n: nat :: CycleIsFresh(model, m, entry, n)
  }

  predicate CycleIsFresh(model: Model, m: Machine, entry: Word, n: nat) {
    var c := Cycles(model, Fresh(model, m, entry), n);
    c.running && Retires(model, c) ==> RetiresFresh(model, c)
  }

  // ---------- Safety ----------

  lemma CycleRetires(model: Model, c: Core)
    requires |c.stages| > model.ExecStage()
    ensures Cycle(model, c).m.retired == c.m.retired + if Retires(model, c) then 1 else 0
  {
    hide Execute, Fetch;
    if Retires(model, c) {
      var f := c.stages[model.ExecStage() - 1].value;
      ExecuteKeeps(model.Lite(), c.m, f.insn, f.pc);
    }
  }

  lemma FreshInFlight(model: Model, m: Machine, entry: Word)
    ensures InFlight(Fresh(model, m, entry), CourseOf(model, m, entry), 0, 0, 0)
  {
    BackLaws(entry, 0, 0);
  }

  /**
    While the instructions retired so far were fresh, the core stands for the sequential machine
    after as many instructions.
   */
  lemma {:induction false} RunRefines(model: Model, m: Machine, entry: Word, n: nat) returns (j: nat, k: nat)
    requires forall i: nat :: i < RetiredIn(model, m, entry, n) ==> CourseOf(model, m, entry).FreshAt(i)
    ensures RetiredIn(model, m, entry, n) >= 0
    ensures InFlight(Cycles(model, Fresh(model, m, entry), n), CourseOf(model, m, entry), j, k,
                     RetiredIn(model, m, entry, n))
  {
    hide Fetch, Execute, Cycle, InFlight, Course.FreshAt;
    if n == 0 {
      j, k := 0, 0;
      FreshInFlight(model, m, entry);
    } else {
      var c := Cycles(model, Fresh(model, m, entry), n - 1);
      if c.running { CycleRetires(model, c); }
      j, k := RunRefines(model, m, entry, n - 1);
      if c.running {
        j, k := CycleRefines(model, c, CourseOf(model, m, entry), j, k, RetiredIn(model, m, entry, n - 1));
      }
    }
  }

  /**
    After any number of cycles, registers, memory and counters are those of the sequential
    machine after as many instructions as the core has retired; and a core that has stopped
    has stopped where the sequential machine halts.
   */
  lemma PipelineRefinesIsa(model: Model, m: Machine, entry: Word, n: nat)
    requires FreshRun(CourseOf(model, m, entry))
    ensures var c := Cycles(model, Fresh(model, m, entry), n);
            var r := RetiredIn(model, m, entry, n);
            && r >= 0
            && c.m == IsaRun(model.Lite(), Isa(m, entry), r).m
            && (!c.running ==> Halted(IsaRun(model.Lite(), Isa(m, entry), r)))
  {
    hide Fetch, Cycles, IsaRun, Course.FreshAt;
    var j, k := RunRefines(model, m, entry, n);
    BackLaws(Cycles(model, Fresh(model, m, entry), n).pc, 0, 0);
  }

  // ---------- Progress ----------

  /** The number of empty stages before the first full one. */
  function Lead(stages: seq<Option<Fetched>>): (n: nat)
    ensures n <= |stages| && (n == |stages| <==> AllEmpty(stages))
  {
    if stages == [] || stages[0].Some? then 0
    else
      var rest := Lead(stages[1..]);
      assert AllEmpty(stages[1..]) ==> AllEmpty(stages);
      assert AllEmpty(stages) ==> AllEmpty(stages[1..]);
      1 + rest
  }

  /** How many cycles can pass without a retirement. */
  function Rank(model: Model, c: Core, j: nat, k: nat): int {
    if j < k then |c.stages| + 1 + model.ExecStage() - k
    else if !c.drain then |c.stages| + 1 + model.ExecStage()
    else |c.stages| - Lead(c.stages)
  }

  lemma {:induction false} LeadGrows(stages: seq<Option<Fetched>>, n: nat)
    requires n <= |stages|
    ensures Lead(stages[..n]) == if Lead(stages) <= n then Lead(stages) else n
  {
    if n > 0 && stages[0].None? {
      LeadGrows(stages[1..], n - 1);
      assert stages[..n][1..] == stages[1..][..n - 1];
    }
  }

  lemma LeadOfAdvance(stages: seq<Option<Fetched>>)
    requires |stages| > 0 && !AllEmpty(stages)
    ensures Lead(Advance(stages)) == Lead(stages) + 1
  {
    var n := |stages| - 1;
    LeadGrows(stages, n);
    assert Advance(stages)[1..] == stages[..n];
    assert Lead(stages) <= n;
  }

  lemma RankDecreases(model: Model, c: Core, g: Course, j: nat, k: nat, r: nat) returns (j': nat, k': nat)
    requires g.stage == model.ExecStage() && g.lite == model.Lite()
    requires InFlight(c, g, j, k, r) && c.running && (Retires(model, c) ==> g.FreshAt(r))
    ensures InFlight(Cycle(model, c), g, j', k', if Retires(model, c) then r + 1 else r)
    ensures Retires(model, c) ==> !Halted(g.At(r))
    ensures !Retires(model, c) && Cycle(model, c).running ==>
              Rank(model, Cycle(model, c), j', k') < Rank(model, c, j, k)
    ensures 0 <= Rank(model, Cycle(model, c), j', k') <= |c.stages| + 1 + model.ExecStage()
  {
    hide Fetch, Execute, Course.FreshAt, Course.At, Course.Want;
    j', k' := CycleRefines(model, c, g, j, k, r);
    StepCoreKeepsDepth(model, c);
    if j == k && c.drain && !AllEmpty(c.stages) {
      LeadOfAdvance(c.stages);
    }
  }

  lemma {:induction false} HaltedStays(lite: bool, s: Isa, n: nat, more: nat)
    requires Halted(IsaRun(lite, s, n))
    ensures IsaRun(lite, s, n + more) == IsaRun(lite, s, n)
  {
    hide Fetch;
    if more > 0 {
      HaltedStays(lite, s, n, more - 1);
    }
  }

  /** No model goes this many cycles without retiring an instruction or stopping. */
  const PATIENCE := 32

  /** A core stops only where the sequential machine has halted. */
  lemma StoppedIsHalted(c: Core, g: Course, j: nat, k: nat, r: nat)
    requires InFlight(c, g, j, k, r) && !c.running
    ensures Halted(g.At(r))
  {
    hide Fetch, Course.Want;
    BackLaws(c.pc, 0, 0);
  }

  /**
    From a core between two cycles to the one that is about to retire instruction h, when the
    instructions before it are fresh and the run gets that far.
   */
  lemma {:induction false} Reaches(model: Model, m: Machine, entry: Word, h: nat, n: nat, j: nat, k: nat, r: nat)
    returns (n': nat)
    requires var g := CourseOf(model, m, entry);
             && InFlight(Cycles(model, Fresh(model, m, entry), n), g, j, k, r) && r <= h
             && !Halted(g.At(h)) && forall i: nat :: i < h ==> g.FreshAt(i)
    requires r == RetiredIn(model, m, entry, n)
    ensures var c := Cycles(model, Fresh(model, m, entry), n');
            c.running && Retires(model, c) && RetiredIn(model, m, entry, n') == h
    decreases h - r, Rank(model, Cycles(model, Fresh(model, m, entry), n), j, k) + PATIENCE
  {
    hide Fetch, Execute, Cycle, InFlight, Course.FreshAt, Rank;
    var g, c := CourseOf(model, m, entry), Cycles(model, Fresh(model, m, entry), n);
    if !c.running {
      StoppedIsHalted(c, g, j, k, r);
      HaltedStays(g.lite, g.start, r, h - r);
    }
    assert c.running;
    CycleRetires(model, c);
    if Retires(model, c) && r == h {
      n' := n;
    } else {
      var j1, k1 := RankDecreases(model, c, g, j, k, r);
      var r1 := if Retires(model, c) then r + 1 else r;
      assert Cycles(model, Fresh(model, m, entry), n + 1) == Cycle(model, c);
      if !Cycle(model, c).running {
        StoppedIsHalted(Cycle(model, c), g, j1, k1, r1);
        HaltedStays(g.lite, g.start, r1, h - r1);
      }
      n' := Reaches(model, m, entry, h, n + 1, j1, k1, r1);
    }
  }

  /** The first instruction that a store has changed after its fetch is retired stale. */
  lemma FirstStale(model: Model, m: Machine, entry: Word, h: nat) returns (n: nat)
    requires !CourseOf(model, m, entry).FreshAt(h)
    requires forall i: nat :: i < h ==> CourseOf(model, m, entry).FreshAt(i)
    ensures !CycleIsFresh(model, m, entry, n) && RetiredIn(model, m, entry, n) == h
  {
    hide Fetch, Execute, Cycle, InFlight;
    var g := CourseOf(model, m, entry);
    HaltedIsFresh(g, h);
    FreshInFlight(model, m, entry);
    n := Reaches(model, m, entry, h, 0, 0, 0, 0);
    hide Course.FreshAt, Cycles;
    var j, k := RunRefines(model, m, entry, n);
    OldestIsNext(model, Cycles(model, Fresh(model, m, entry), n), g, j, k, h);
    SameMemory(Cycles(model, Fresh(model, m, entry), n), g, j, k, h);
  }

  lemma SameMemory(c: Core, g: Course, j: nat, k: nat, r: nat)
    requires InFlight(c, g, j, k, r)
    ensures c.m == g.At(r).m
  {
    hide Course.At;
  }

  lemma HaltedIsFresh(g: Course, h: nat)
    ensures Halted(g.At(h)) ==> g.FreshAt(h)
  {
    hide Fetch, IsaRun;
    SameSize(g, g.Seen(h, h), h);
  }

  lemma FirstFailure(g: Course, h: nat) returns (f: nat)
    requires !g.FreshAt(h)
    ensures f <= h && !g.FreshAt(f) && forall i: nat :: i < f ==> g.FreshAt(i)
  {
    hide Course.FreshAt;
    f := 0;
    while g.FreshAt(f)
      invariant f <= h && forall i: nat :: i < f ==> g.FreshAt(i)
      decreases h - f
    {
      f := f + 1;
    }
  }

  /**
    A pipeline never executes a stale instruction if and only if the sequential run has every
    instruction word unchanged since the pipeline fetched it. The right-hand side speaks of the
    sequential run alone: instruction n is fetched when all but the stage - 1 instructions before
    it have been executed, or else when the last taken branch before it has.
   */
  lemma NeverStaleIff(model: Model, m: Machine, entry: Word)
    ensures NeverStale(model, m, entry) <==> FreshRun(CourseOf(model, m, entry))
  {
    hide Fetch, Execute, Cycles, InFlight, Course.FreshAt, CycleIsFresh;
    var g := CourseOf(model, m, entry);
    if FreshRun(g) {
      forall n: nat ensures CycleIsFresh(model, m, entry, n) { FreshCycle(model, m, entry, n); }
    } else {
      var h: nat :| !g.FreshAt(h);
      var f := FirstFailure(g, h);
      var n := FirstStale(model, m, entry, f);
    }
  }

  lemma FreshCycle(model: Model, m: Machine, entry: Word, n: nat)
    requires FreshRun(CourseOf(model, m, entry))
    ensures CycleIsFresh(model, m, entry, n)
  {
    hide Fetch, Execute, Cycles, InFlight, Course.FreshAt;
    var c := Cycles(model, Fresh(model, m, entry), n);
    var j, k := RunRefines(model, m, entry, n);
    if c.running && Retires(model, c) {
      OldestIsNext(model, c, CourseOf(model, m, entry), j, k, RetiredIn(model, m, entry, n));
    }
  }

  /** While the core runs, cycles passed plus cycles still needed stay within the initial budget. */
  lemma {:induction false} BudgetShrinks(model: Model, m: Machine, entry: Word, halt: nat, n: nat)
    returns (j: nat, k: nat)
    requires FreshRun(CourseOf(model, m, entry))
    requires Halted(IsaRun(model.Lite(), Isa(m, entry), halt))
    ensures var c := Cycles(model, Fresh(model, m, entry), n);
            var r := RetiredIn(model, m, entry, n);
            && 0 <= r <= halt
            && InFlight(c, CourseOf(model, m, entry), j, k, r)
            && 0 <= Rank(model, c, j, k) < PATIENCE
            && (c.running ==> n + PATIENCE * (halt - r) + Rank(model, c, j, k) < PATIENCE * (halt + 1))
  {
    hide Fetch, Execute, Cycle, InFlight, Rank, Course.FreshAt, FreshRun;
    var g := CourseOf(model, m, entry);
    if n == 0 {
      j, k := 0, 0;
      FreshInFlight(model, m, entry);
      FreshRank(model, m, entry);
    } else {
      j, k := BudgetShrinks(model, m, entry, halt, n - 1);
      var c := Cycles(model, Fresh(model, m, entry), n - 1);
      if c.running {
        var r := RetiredIn(model, m, entry, n - 1);
        CycleRetires(model, c);
        AllFresh(g, r);
        j, k := RankDecreases(model, c, g, j, k, r);
      }
    }
  }

  lemma AllFresh(g: Course, r: nat)
    requires FreshRun(g)
    ensures g.FreshAt(r)
  {
    hide Course.FreshAt;
  }

  lemma FreshRank(model: Model, m: Machine, entry: Word)
    ensures 0 <= Rank(model, Fresh(model, m, entry), 0, 0) < PATIENCE
  {
  }

  /**
    A core stops exactly when the sequential machine halts, at most 32 cycles per instruction
    later, and then with the sequential machine's registers, memory and counters.
   */
  lemma PipelineStops(model: Model, m: Machine, entry: Word, halt: nat)
    requires FreshRun(CourseOf(model, m, entry))
    requires Halted(IsaRun(model.Lite(), Isa(m, entry), halt))
    ensures var c := Cycles(model, Fresh(model, m, entry), PATIENCE * (halt + 1));
            !c.running && c.m == IsaRun(model.Lite(), Isa(m, entry), halt).m
  {
    hide Fetch, Cycles, InFlight, Rank, FreshRun, IsaRun;
    var n := PATIENCE * (halt + 1);
    var j, k := BudgetShrinks(model, m, entry, halt, n);
    PipelineRefinesIsa(model, m, entry, n);
    var r := RetiredIn(model, m, entry, n);
    HaltedStays(model.Lite(), Isa(m, entry), r, halt - r);
  }

  /**
    Cores of different depth give identical results: if one stops, so does the other, and they
    agree on registers, memory and counters.
   */
  lemma ModelsAgree(a: Model, b: Model, m: Machine, entry: Word, n: nat)
    requires a.Lite() == b.Lite()
    requires FreshRun(CourseOf(a, m, entry)) && FreshRun(CourseOf(b, m, entry))
    requires !Cycles(a, Fresh(a, m, entry), n).running
    ensures var r := RetiredIn(a, m, entry, n);
            && r >= 0
            && var c := Cycles(b, Fresh(b, m, entry), PATIENCE * (r + 1));
               !c.running && c.m == Cycles(a, Fresh(a, m, entry), n).m
  {
    hide Cycles, FreshRun, IsaRun;
    PipelineRefinesIsa(a, m, entry, n);
    PipelineStops(b, m, entry, RetiredIn(a, m, entry, n));
  }
}
