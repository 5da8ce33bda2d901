/** The debugger and the profiler: both step the device, neither changes what it computes. */
module Observers {
  import opened Bits
  import opened BradVector
  import opened Bvrt
  import opened BvrtStack
  import opened BvrtDevice

  const MAX_BREAK := 64
  const MAX_EVENTS := 65536

  // ---------- Plain stepping ----------

  /** The program counter after n plain steps; -1 when they do not all succeed. */
  function PcAt(F: Fpu, code: seq<Code>, d: Device, n: nat): int
    requires d.Valid()
  {
    var e := StateAfter(F, code, d, n);
    if e.None? then -1 else e.value.pc
  }

  lemma NextAfter(F: Fpu, code: seq<Code>, d: Device, n: nat, e: Device)
    requires d.Valid() && StateAfter(F, code, d, n) == Some(e) && Step(F, code, e).status == Ok
    ensures StateAfter(F, code, d, n + 1) == Some(Step(F, code, e).dev)
  {
    hide Step;
  }

  lemma PcIs(F: Fpu, code: seq<Code>, d: Device, n: nat, e: Device)
    requires d.Valid() && StateAfter(F, code, d, n) == Some(e)
    ensures PcAt(F, code, d, n) == e.pc
  {
    hide StateAfter;
  }

  // ---------- The debugger ----------

  datatype Break = Break(pc: Word, enabled: bool, hit: nat)

  predicate StopsAt(breaks: seq<Break>, pc: int) {
    exists i :: 0 <= i < |breaks| && breaks[i].enabled && breaks[i].pc == pc
  }

  class Debugger {
    const dev: BvrtDevice
    var breaks: seq<Break>
    var steps: nat

    constructor (dev: BvrtDevice)
      ensures this.dev == dev && breaks == [] && steps == 0
    {
      this.dev := dev;
      breaks, steps := [], 0;
    }

    /** bradgdb_add_break: one breakpoint per address. */
    method AddBreak(pc: Word) returns (id: int)
      modifies this`breaks
      ensures |old(breaks)| >= 64 ==> id == -1 && breaks == old(breaks)
      ensures |old(breaks)| < 64 ==> 0 <= id < |breaks| && breaks[id].pc == pc
      ensures breaks == old(breaks) || breaks == old(breaks) + [Break(pc, true, 0)]
      ensures breaks != old(breaks) ==> id == |old(breaks)| && forall i :: 0 <= i < id ==> old(breaks)[i].pc != pc
    {
      if |breaks| >= MAX_BREAK { return -1; }
      for i := 0 to |breaks|
        invariant forall j :: 0 <= j < i ==> breaks[j].pc != pc
      {
        if breaks[i].pc == pc { return i; }
      }
      id := |breaks|;
      breaks := breaks + [Break(pc, true, 0)];
    }

    method EnableBreak(id: int, enabled: bool)
      modifies this`breaks
      ensures breaks == if 0 <= id < |old(breaks)| then old(breaks)[id := old(breaks)[id].(enabled := enabled)]
                        else old(breaks)
    {
      if 0 <= id < |breaks| { breaks := breaks[id := breaks[id].(enabled := enabled)]; }
    }

    /** at_breakpoint: the first enabled breakpoint there, or -1. */
    method AtBreakpoint(pc: Word) returns (id: int)
      ensures id == -1 <==> !StopsAt(breaks, pc)
      ensures id != -1 ==> 0 <= id < |breaks| && breaks[id].enabled && breaks[id].pc == pc
    {
      for i := 0 to |breaks|
        invariant forall j :: 0 <= j < i ==> !(breaks[j].enabled && breaks[j].pc == pc)
      {
        if breaks[i].enabled && breaks[i].pc == pc { return i; }
      }
      id := -1;
    }

    /** bradgdb_step. */
    method StepOnce() returns (st: Status)
      requires dev.Valid()
      modifies this`steps, dev`pc, dev`cycles, dev`status, dev`insns, dev.lanes, dev.active, dev.mem
      ensures dev.Valid() && Stepped(dev.Value(), st) == Step(dev.F, dev.code, old(dev.Value()))
      ensures steps == old(steps) + if st == Ok then 1 else 0
    {
      hide Bvrt.Step;
      st := dev.Step();
      if st == Ok { steps := steps + 1; }
    }

    /**
      bradgdb_continue, for at most `fuel` steps; none when that many were not enough. It takes
      n plain steps, none of them from an enabled breakpoint, and stops where plain stepping is:
      at a breakpoint, in a halted state, or in the state of a step that failed.
     */
    method Continue(fuel: nat) returns (st: Option<Status>, ghost n: nat)
      requires dev.Valid()
      modifies this`steps, this`breaks, dev`pc, dev`cycles, dev`status, dev`insns, dev.lanes, dev.active, dev.mem
      ensures dev.Valid() && n <= fuel && steps == old(steps) + n
      ensures StateAfter(dev.F, dev.code, old(dev.Value()), n).Some?
      ensures forall m :: 0 <= m < n ==> !StopsAt(old(breaks), PcAt(dev.F, dev.code, old(dev.Value()), m))
      ensures var e := StateAfter(dev.F, dev.code, old(dev.Value()), n).value;
              match st
              case None => n == fuel && dev.Value() == e
              case Some(Ok) => dev.Value() == e && StopsAt(old(breaks), e.pc)
              case Some(s) =>
                && Stepped(dev.Value(), s) == Step(dev.F, dev.code, e) && s != Ok
                && (e.AnyActive() ==> !StopsAt(old(breaks), e.pc))
      ensures |breaks| == |old(breaks)|
      ensures forall i :: 0 <= i < |breaks| ==> breaks[i].(hit := 0) == old(breaks)[i].(hit := 0)
    {
      hide Bvrt.Step, PcAt, StopsAt, Device.AnyActive, Device.Valid;
      ghost var start := dev.Value();
      assert StateAfter(dev.F, dev.code, start, 0) == Some(start);
      hide StateAfter;
      n := 0;
      for i := 0 to fuel
        invariant dev.Valid() && n == i && steps == old(steps) + n && breaks == old(breaks)
        invariant StateAfter(dev.F, dev.code, start, n) == Some(dev.Value())
        invariant forall m :: 0 <= m < n ==> !StopsAt(breaks, PcAt(dev.F, dev.code, start, m))
      {
        ghost var e := dev.Value();
        PcIs(dev.F, dev.code, start, n, e);
        StepHalted(dev.F, dev.code, e);
        var running := dev.MaskSet();
        if !running { return Some(Halted), n; }
        var bp := AtBreakpoint(dev.pc);
        if bp >= 0 {
          breaks := breaks[bp := breaks[bp].(hit := breaks[bp].hit + 1)];
          return Some(Ok), n;
        }
        var s := StepOnce();
        if s != Ok { return Some(s), n; }
        NextAfter(dev.F, dev.code, start, n, e);
        n := n + 1;
      }
      st := None;
    }
  }

  // ---------- The profiler ----------

  datatype Event = Event(cycle: nat, pc: Word, op: nat, lanes: nat)

  function CountTrue(bs: seq<bool>): nat {
    if bs == [] then 0 else CountTrue(bs[..|bs| - 1]) + if bs[|bs| - 1] then 1 else 0
  }

  function OpAt(code: seq<Code>, pc: Word): nat { if pc < |code| then Field(code[pc], 7) else 0xFF }

  /** What is recorded for step n of a plain run, when `first` steps were counted before it. */
  function EventAt(F: Fpu, code: seq<Code>, d: Device, n: nat, first: nat): Option<Event>
    requires d.Valid()
  {
    var e := StateAfter(F, code, d, n);
    if e.None? then None
    else Some(Event(first + n + 1, e.value.pc, OpAt(code, e.value.pc), CountTrue(e.value.active)))
  }

  lemma EventIs(F: Fpu, code: seq<Code>, d: Device, n: nat, e: Device, first: nat)
    requires d.Valid() && StateAfter(F, code, d, n) == Some(e)
    ensures EventAt(F, code, d, n, first) == Some(Event(first + n + 1, e.pc, OpAt(code, e.pc), CountTrue(e.active)))
  {
    hide StateAfter;
  }

  /** The lanes that are counted are those that are active. */
  lemma {:induction false} CountTrueIs(bs: seq<bool>)
    ensures CountTrue(bs) == |Lanes(bs)|
  {
    if bs != [] {
      CountTrueIs(bs[..|bs| - 1]);
      LanesNext(bs);
    }
  }

  ghost function Lanes(bs: seq<bool>): set<nat> { set l | 0 <= l < |bs| && bs[l] }

  lemma LanesNext(bs: seq<bool>)
    requires bs != []
    ensures var n := |bs| - 1;
            n !in Lanes(bs[..n]) && Lanes(bs) == Lanes(bs[..n]) + if bs[n] then {n} else {}
  {
  }

  /** The recorded operation is the highest byte of the instruction word, or 255 outside the code. */
  lemma OpAtIs(code: seq<Code>, pc: Word)
    ensures if pc < |code| then code[pc] == OpAt(code, pc) * 0x100_0000_0000_0000 + code[pc] % 0x100_0000_0000_0000
            else OpAt(code, pc) == 255
    ensures OpAt(code, pc) < 256
  {
    if pc < |code| {
      HighField(code[pc]);
      FieldByte(code[pc], 7);
    }
  }

  lemma HighField(w: nat)
    requires w < 0x1_0000_0000_0000_0000
    ensures Field(w, 7) == w / 0x100_0000_0000_0000
  {
    var a := w / 0x1_0000_0000;
    assert Field(w, 7) == Field(w / 256, 6) == Field(w / 256 / 256, 5) == Field(w / 256 / 256 / 256, 4);
    assert w / 256 / 256 / 256 / 256 == a;
    assert Field(a, 3) == Field(a / 256, 2) == Field(a / 256 / 256, 1) == Field(a / 256 / 256 / 256, 0);
    assert a / 256 / 256 / 256 == w / 0x100_0000_0000_0000;
  }

  lemma {:induction false} FieldByte(w: nat, k: nat)
    ensures Field(w, k) < 256
  {
    if k > 0 { FieldByte(w / 256, k - 1); }
  }

  /** How many recorded events have this operation. */
  function Tally(events: seq<Event>, op: nat): nat {
    if events == [] then 0 else Tally(events[..|events| - 1], op) + if events[|events| - 1].op == op then 1 else 0
  }

  /** Entry op of the histogram is the number of recorded events with that operation. */
  lemma {:induction false} TallyIs(events: seq<Event>, op: nat)
    ensures Tally(events, op) == |Those(events, op)|
  {
    if events != [] {
      TallyIs(events[..|events| - 1], op);
      ThoseNext(events, op);
    }
  }

  ghost function Those(events: seq<Event>, op: nat): set<nat> { set k | 0 <= k < |events| && events[k].op == op }

  lemma ThoseNext(events: seq<Event>, op: nat)
    requires events != []
    ensures var n := |events| - 1;
            && n !in Those(events[..n], op)
            && Those(events, op) == Those(events[..n], op) + if events[n].op == op then {n} else {}
  {
  }

  function Total(hist: seq<nat>): nat {
    if hist == [] then 0 else Total(hist[..|hist| - 1]) + hist[|hist| - 1]
  }

  /** The histogram of the first n operation codes. */
  function Histogram(events: seq<Event>, n: nat): (r: seq<nat>)
    ensures |r| == n && forall op :: 0 <= op < n ==> r[op] == Tally(events, op)
  {
    seq(n, op requires 0 <= op => Tally(events, op))
  }

  lemma {:induction false} TotalOfTallies(events: seq<Event>, n: nat)
    ensures Total(Histogram(events, n)) == Below(events, n)
  {
    BelowNext(events, 0);
    if n > 0 {
      TotalOfTallies(events, n - 1);
      assert Histogram(events, n)[..n - 1] == Histogram(events, n - 1);
      BelowNext(events, n - 1);
    }
  }

  /** How many events have an operation code below n. */
  function Below(events: seq<Event>, n: nat): nat {
    if events == [] then 0 else Below(events[..|events| - 1], n) + if events[|events| - 1].op < n then 1 else 0
  }

  lemma {:induction false} BelowNext(events: seq<Event>, n: nat)
    ensures Below(events, n + 1) == Below(events, n) + Tally(events, n) && Below(events, 0) == 0
  {
    if events != [] { BelowNext(events[..|events| - 1], n); }
  }

  lemma {:induction false} AllBelow(events: seq<Event>)
    requires forall k :: 0 <= k < |events| ==> events[k].op < 256
    ensures Below(events, 256) == |events|
  {
    if events != [] { AllBelow(events[..|events| - 1]); }
  }

  class Timeline {
    const dev: BvrtDevice
    const hist: array<nat>
    var events: seq<Event>
    var insns: nat
    var traps: nat

    ghost predicate Valid()
      reads this, hist
    {
      && hist.Length == 256 && |events| == (if insns < MAX_EVENTS then insns else MAX_EVENTS)
      && (forall op :: 0 <= op < 256 ==> hist[op] == Tally(events, op))
      && forall k :: 0 <= k < |events| ==> events[k].op < 256
    }

    constructor (dev: BvrtDevice)
      ensures Valid() && this.dev == dev && events == [] && insns == 0 && traps == 0 && fresh(hist)
    {
      this.dev := dev;
      hist := new nat[256](_ => 0);
      events, insns, traps := [], 0, 0;
    }

    /** popcount32 of the active mask. */
    method ActiveLanes() returns (n: nat)
      requires dev.Valid()
      ensures n == CountTrue(dev.Value().active)
    {
      n := 0;
      for l := 0 to WARP_SIZE
        invariant n == CountTrue(dev.active[..l])
      {
        assert dev.active[..l + 1][..l] == dev.active[..l];
        if dev.active[l] { n := n + 1; }
      }
      assert dev.active[..WARP_SIZE] == dev.active[..];
    }

    /** Append one event and count its operation. */
    method Record(e: Event)
      requires hist.Length == 256 && (forall op :: 0 <= op < 256 ==> hist[op] == Tally(events, op)) && e.op < 256
      requires forall k :: 0 <= k < |events| ==> events[k].op < 256
      modifies this`events, hist
      ensures if |old(events)| < MAX_EVENTS then events == old(events) + [e] else events == old(events)
      ensures forall op :: 0 <= op < 256 ==> hist[op] == Tally(events, op)
      ensures forall k :: 0 <= k < |events| ==> events[k].op < 256
    {
      if |events| < MAX_EVENTS {
        events := events + [e];
        assert events[..|events| - 1] == old(events);
        hist[e.op] := hist[e.op] + 1;
      }
    }

    /** bvtl_retire: step the device, then record what was stepped. */
    method Retire() returns (st: Status)
      requires Valid() && dev.Valid()
      modifies this`events, this`insns, this`traps, hist
      modifies dev`pc, dev`cycles, dev`status, dev`insns, dev.lanes, dev.active, dev.mem
      ensures Valid() && dev.Valid() && Stepped(dev.Value(), st) == Step(dev.F, dev.code, old(dev.Value()))
      ensures var d := old(dev.Value());
              if !d.AnyActive() then events == old(events) && insns == old(insns)
              else insns == old(insns) + 1
                   && events == if old(insns) < 65536
                                then old(events) + [Event(insns, d.pc, OpAt(dev.code, d.pc), CountTrue(d.active))]
                                else old(events)
    {
      hide Bvrt.Step, Field;
      var running := dev.MaskSet();
      StepHalted(dev.F, dev.code, dev.Value());
      if !running { return Halted; }
      var pc := dev.pc;
      var lanes := ActiveLanes();
      st := dev.Step();
      insns := insns + 1;
      var op := OpAt(dev.code, pc);
      if pc < |dev.code| { FieldByte(dev.code[pc], 7); }
      Record(Event(insns, pc, op, lanes));
      if st == Trapped { traps := traps + 1; }
    }

    /**
      bvtl_run: the device ends in the state that a plain run with the remaining budget leaves,
      and the new events are those of its steps. The status is the plain one too, except for a
      run that halts with its very last instruction, which one instruction less would cut short:
      that is reported as a timeout. So is every call without a remaining budget.
     */
    method RunTraced(max: nat) returns (st: Status)
      requires Valid() && dev.Valid()
      modifies this`events, this`insns, this`traps, hist
      modifies dev`pc, dev`cycles, dev`status, dev`insns, dev.lanes, dev.active, dev.mem
      ensures Valid() && dev.Valid()
      ensures max <= old(insns) ==>
                st == Timeout && dev.Value() == old(dev.Value()) && insns == old(insns) && events == old(events)
      ensures max > old(insns) ==>
                var start, budget := old(dev.Value()), old(dev.insns) + max - old(insns);
                var r := Run(dev.F, dev.code, start, budget);
                && dev.Value() == r.dev
                && st == if r.status == Halted && Run(dev.F, dev.code, start, budget - 1).status == Timeout
                         then Timeout else r.status
      ensures old(events) <= events
      ensures forall k :: old(insns) <= k < |events| ==>
                EventAt(dev.F, dev.code, old(dev.Value()), k - old(insns), old(insns)) == Some(events[k])
    {
      hide Bvrt.Step, Bvrt.Run, EventAt, CountTrue, OpAt, Device.AnyActive;
      ghost var start, first := dev.Value(), insns;
      ghost var budget := dev.insns + max - insns;
      assert StateAfter(dev.F, dev.code, start, 0) == Some(start);
      hide StateAfter;
      while insns < max
        invariant Valid() && dev.Valid() && first <= insns && dev.insns - start.insns == insns - first
        invariant insns > first ==> insns <= max
        invariant insns == first ==> dev.Value() == start && events == old(events)
        invariant insns < max ==> Run(dev.F, dev.code, start, budget - 1) == Run(dev.F, dev.code, dev.Value(), budget - 1)
        invariant insns == max && first < max ==> Run(dev.F, dev.code, start, budget - 1).status == Timeout
        invariant first < max ==> Run(dev.F, dev.code, start, budget) == Run(dev.F, dev.code, dev.Value(), budget)
        invariant StateAfter(dev.F, dev.code, start, insns - first) == Some(dev.Value()) && old(events) <= events
        invariant forall k :: first <= k < |events| ==>
                    EventAt(dev.F, dev.code, start, k - first, first) == Some(events[k])
        decreases max - insns
      {
        ghost var e := dev.Value();
        EventIs(dev.F, dev.code, start, insns - first, e, first);
        StepHalted(dev.F, dev.code, e);
        RunUnfolds(dev.F, dev.code, e, budget);
        RunUnfolds(dev.F, dev.code, e, budget - 1);
        st := Retire();
        if st != Ok { return; }
        NextAfter(dev.F, dev.code, start, insns - 1 - first, e);
      }
      if first < max { RunUnfolds(dev.F, dev.code, dev.Value(), budget); }
      st := Timeout;
    }
  }

  /** How a plain run begins. */
  lemma RunUnfolds(F: Fpu, code: seq<Code>, e: Device, max: nat)
    requires e.Valid()
    ensures !e.AnyActive() ==> Run(F, code, e, max) == Stepped(e, Halted)
    ensures e.AnyActive() && e.insns >= max ==> Run(F, code, e, max) == Stepped(e, Timeout)
    ensures var s := Step(F, code, e);
            e.AnyActive() && e.insns < max ==> Run(F, code, e, max) == if s.status == Ok then Run(F, code, s.dev, max) else s
  {
    hide Step;
  }

  /** A program of one EXIT, run with a budget of one instruction: halted, but traced as a timeout. */
  lemma LastInstructionHalts(F: Fpu, mem: seq<Byte>)
    ensures var code, d := [WordOf(Insn(EXIT, 0, 0, 0, 0, 0, 0, 0))], Launch(WARP_SIZE, 0, [], mem);
            Run(F, code, d, 1).status == Halted && Run(F, code, d, 0).status == Timeout
  {
    hide Decode, WordOf;
    var exit := Insn(EXIT, 0, 0, 0, 0, 0, 0, 0);
    ExitEncodes();
    var code, d := [WordOf(exit)], Launch(WARP_SIZE, 0, [], mem);
    assert d.active[0] && d.AnyActive();
    var e := Step(F, code, d).dev;
    assert e.active == NoneActive(WARP_SIZE) && !e.AnyActive();
  }

  lemma ExitEncodes()
    ensures Decode(WordOf(Insn(EXIT, 0, 0, 0, 0, 0, 0, 0))) == Insn(EXIT, 0, 0, 0, 0, 0, 0, 0)
  {
    DecodeWord(Insn(EXIT, 0, 0, 0, 0, 0, 0, 0));
  }

  lemma StepHalted(F: Fpu, code: seq<Code>, d: Device)
    requires d.Valid()
    ensures !d.AnyActive() ==> Step(F, code, d) == Stepped(d, Halted)
    ensures d.AnyActive() ==> Step(F, code, d).status != Halted
  {
    hide ComputeLanes, AccessFrom, PushFrom, PopFrom, AnyOn, Decode;
  }

  /** The histogram adds up to the number of events, which is the number of steps up to the buffer size. */
  lemma HistogramTotal(hist: seq<nat>, events: seq<Event>)
    requires |hist| == 256 && (forall op :: 0 <= op < 256 ==> hist[op] == Tally(events, op))
    requires forall k :: 0 <= k < |events| ==> events[k].op < 256
    ensures Total(hist) == |events|
  {
    assert hist == Histogram(events, 256);
    TotalOfTallies(events, 256);
    AllBelow(events);
  }
}
