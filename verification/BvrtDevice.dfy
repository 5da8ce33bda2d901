/** The interpreter as the source runs it: one device whose registers and memory change in place. */
module BvrtDevice {
  import opened Bits
  import opened BradVector
  import opened Bvrt

  const MAX_MEM := 0x400_0000

  /** The memory that a device gets for a requested size. */
  function Clamped(memBytes: nat): nat {
    if memBytes == 0 then 1 else if memBytes > MAX_MEM then MAX_MEM else memBytes
  }

  class BvrtDevice {
    const F: Fpu
    const mem: array<Byte>
    const lanes: array<Lane>
    const active: array<bool>
    var code: seq<Code>
    var pc: Word
    var cycles: Word
    var insns: nat
    var status: Status

    ghost predicate Valid()
      reads this, lanes
    {
      && lanes.Length == active.Length == WARP_SIZE
      && forall l :: 0 <= l < lanes.Length ==> lanes[l].Valid()
    }

    ghost function Value(): (d: Device)
      reads this, lanes, active, mem
      requires Valid()
      ensures d.Valid() && |d.lanes| == WARP_SIZE
    {
      Device(pc, active[..], lanes[..], cycles, mem[..], insns, status)
    }

    /** bvrt_create: memory is clamped to 64 MiB, and is never empty. */
    constructor (F: Fpu, memBytes: nat)
      ensures Valid() && fresh(mem) && fresh(lanes) && fresh(active) && this.F == F && code == []
      ensures mem.Length == if memBytes == 0 then 1 else if memBytes > 0x400_0000 then 0x400_0000 else memBytes
    {
      this.F := F;
      mem := new Byte[Clamped(memBytes)](_ => 0);
      lanes := new Lane[WARP_SIZE](_ => LaunchLane(0, []));
      active := new bool[WARP_SIZE](_ => false);
      code, pc, cycles, insns, status := [], 0, 0, 0, Ok;
      new;
    }

    /** bvrt_launch at a known entry point. */
    method Launch(entry: Word, args: seq<Word>)
      requires Valid()
      modifies this`pc, this`cycles, this`insns, this`status, lanes, active
      ensures Valid() && Value() == Bvrt.Launch(WARP_SIZE, entry, args, mem[..])
    {
      pc, cycles, insns, status := entry, 0, 0, Ok;
      for l := 0 to WARP_SIZE
        invariant Valid() && pc == entry && cycles == insns == 0 && status == Ok
        invariant forall k :: 0 <= k < l ==> lanes[k] == LaunchLane(k, args) && active[k]
      {
        lanes[l] := LaunchLane(l, args);
        active[l] := true;
      }
      ghost var d := Bvrt.Launch(WARP_SIZE, entry, args, mem[..]);
      assert lanes[..] == d.lanes && active[..] == d.active;
    }

    predicate Enabled(insn: Insn, l: nat)
      reads this, lanes, active
      requires Valid() && l < WARP_SIZE
    {
      active[l] && PredOk(lanes[l], insn.pred)
    }

    /** Every enabled lane computes. */
    method ComputeAll(insn: Insn)
      requires Valid()
      modifies lanes
      ensures Valid() && Value() == old(Value()).(lanes := ComputeLanes(F, old(Value()), insn))
    {
      hide ComputeLane, PredOk;
      ghost var d := Value();
      for l := 0 to WARP_SIZE
        invariant Valid()
        invariant Value() == d.(lanes := Value().lanes)
        invariant forall k :: 0 <= k < l ==> lanes[k] == ComputeLanes(F, d, insn)[k]
        invariant forall k :: l <= k < WARP_SIZE ==> lanes[k] == d.lanes[k]
      {
        assert Enabled(insn, l) == On(d, insn, l);
        if Enabled(insn, l) {
          ComputeKeepsLane(F, insn, lanes[l], l, cycles);
          lanes[l] := ComputeLane(F, insn, lanes[l], l, cycles);
        }
      }
      assert lanes[..] == ComputeLanes(F, d, insn);
    }

    /** Little-endian, in place. */
    method StoreWord(addr: int, v: Word)
      modifies mem
      ensures mem[..] == Store32(old(mem[..]), addr, v)
    {
      Digits(v);
      if 0 <= addr && addr + 4 <= mem.Length {
        mem[addr] := v % 0x100;
        mem[addr + 1] := v / 0x100 % 0x100;
        mem[addr + 2] := v / 0x1_0000 % 0x100;
        mem[addr + 3] := v / 0x100_0000;
      }
    }

    method LoadWord(addr: int) returns (v: Word)
      ensures v == Load32(mem[..], addr)
    {
      if 0 <= addr && addr + 4 <= mem.Length {
        v := mem[addr] as int + 0x100 * (mem[addr + 1] as int) + 0x1_0000 * (mem[addr + 2] as int)
             + 0x100_0000 * (mem[addr + 3] as int);
      } else {
        v := 0;
      }
    }

    /** One lane's LOAD, STORE or ATOMIC_ADD; the lane is given back. */
    method Transfer(insn: Insn, lane: Lane) returns (w: Lane)
      modifies mem
      ensures (w, mem[..]) == AccessLane(insn, lane, old(mem[..]))
    {
      hide Load32, Store32, Address, SetS, GetS;
      w := lane;
      var addr := Address(insn, w);
      var v := LoadWord(addr);
      if insn.op == LOAD {
        w := SetS(w, insn.dst, v);
      } else if insn.op == STORE {
        StoreWord(addr, GetS(w, insn.dst));
      } else {
        StoreWord(addr, (v + GetS(w, insn.src2)) % WORD);
        w := SetS(w, insn.dst, v);
      }
    }

    method Access(insn: Insn, l: nat)
      requires Valid() && l < WARP_SIZE
      modifies lanes, mem
      ensures Valid()
      ensures var (w, m) := AccessLane(insn, old(lanes[l]), old(mem[..]));
              Value() == old(Value()).(lanes := old(lanes[..])[l := w], mem := m)
    {
      hide AccessLane;
      AccessKeepsLane(insn, lanes[l], mem[..]);
      var w := Transfer(insn, lanes[l]);
      lanes[l] := w;
    }

    /** Memory accesses lane by lane, stopping at the first that is out of bounds. */
    method AccessAll(insn: Insn) returns (oob: bool)
      requires Valid()
      modifies lanes, mem
      ensures Valid() && (Value(), oob) == AccessFrom(old(Value()), insn, 0)
    {
      hide AccessLane, PredOk, Address;
      ghost var d := Value();
      for l := 0 to WARP_SIZE
        invariant Valid() && AccessFrom(d, insn, 0) == AccessFrom(Value(), insn, l)
      {
        assert Enabled(insn, l) == On(Value(), insn, l);
        if Enabled(insn, l) {
          var addr := Address(insn, lanes[l]);
          if (addr + 4) % TWO_64 > mem.Length {
            oob := true;
            return;
          }
          Access(insn, l);
        }
      }
      oob := false;
    }

    /** Some lane is active and passes the predicate. */
    method FindEnabled(insn: Insn) returns (found: bool)
      requires Valid()
      ensures found == AnyOn(Value(), insn)
    {
      hide PredOk;
      for l := 0 to WARP_SIZE
        invariant forall k :: 0 <= k < l ==> !On(Value(), insn, k)
      {
        assert Enabled(insn, l) == On(Value(), insn, l);
        if Enabled(insn, l) {
          found := true;
          return;
        }
      }
      found := false;
    }

    method PushAll(insn: Insn) returns (full: bool)
      requires Valid()
      modifies lanes
      ensures Valid() && (Value(), full) == PushFrom(old(Value()), insn, 0)
    {
      hide PredOk;
      ghost var d := Value();
      for l := 0 to WARP_SIZE
        invariant Valid() && PushFrom(d, insn, 0) == PushFrom(Value(), insn, l)
      {
        assert Enabled(insn, l) == On(Value(), insn, l);
        if Enabled(insn, l) {
          var w := lanes[l];
          if w.retsp >= MAX_RET {
            full := true;
            return;
          }
          ghost var was := Value();
          lanes[l] := w.(ret := w.ret[w.retsp := (pc + 1) % WORD], retsp := w.retsp + 1);
          assert Value() == was.(lanes := was.lanes[l := lanes[l]]);
        }
      }
      full := false;
    }

    method PopAll() returns (empty: bool)
      requires Valid()
      modifies this`pc, lanes
      ensures Valid() && (Value(), empty) == PopFrom(old(Value()), 0)
    {
      ghost var d := Value();
      for l := 0 to WARP_SIZE
        invariant Valid() && PopFrom(d, 0) == PopFrom(Value(), l)
      {
        if active[l] {
          var w := lanes[l];
          if w.retsp == 0 {
            empty := true;
            return;
          }
          ghost var was := Value();
          lanes[l] := w.(retsp := w.retsp - 1);
          pc := w.ret[w.retsp - 1];
          assert Value() == was.(lanes := was.lanes[l := lanes[l]], pc := pc);
        }
      }
      empty := false;
    }

    method Deactivate()
      requires Valid()
      modifies active
      ensures Valid() && Value() == old(Value()).(active := NoneActive(|old(Value()).active|))
    {
      for l := 0 to WARP_SIZE
        invariant forall k :: 0 <= k < l ==> !active[k]
      {
        active[l] := false;
      }
      assert active[..] == NoneActive(WARP_SIZE);
    }

    /** Sequential flow. */
    method Advance()
      requires Valid()
      modifies this`pc, this`cycles
      ensures Valid() && Value() == Bvrt.Advance(old(Value())).dev
    {
      pc, cycles := (pc + 1) % WORD, (cycles + 1) % WORD;
    }

    method Jump(imm: int)
      requires Valid()
      modifies this`pc
      ensures Valid() && Value() == old(Value()).(pc := Target(old(Value()).pc, imm))
    {
      pc := (pc + 1 + imm) % WORD;
    }

    /** bvrt_trap. */
    method Trap() returns (st: Status)
      requires Valid()
      modifies this`status
      ensures Valid() && Stepped(Value(), st) == Bvrt.Trap(old(Value()))
    {
      status, st := Trapped, Trapped;
    }

    /** Calls and returns. */
    method CallOrReturn(insn: Insn) returns (st: Status)
      requires Valid() && insn.op in {CALL, RET}
      modifies this`pc, this`status, lanes
      ensures Valid() && Stepped(Value(), st) == Execute(F, old(Value()), insn)
    {
      hide PushFrom, PopFrom, Valid, Value, Execute;
      CallMeans(F, Value(), insn);
      st := Ok;
      if insn.op == CALL {
        var full := PushAll(insn);
        if full { st := Trap(); } else { Jump(insn.imm); }
      } else {
        var empty := PopAll();
        if empty { st := Trap(); }
      }
    }

    /** Branches. */
    method BranchIfEnabled(insn: Insn)
      requires Valid() && insn.op in {BR, BR_COND}
      modifies this`pc, this`cycles
      ensures Valid() && Stepped(Value(), Ok) == Execute(F, old(Value()), insn)
    {
      hide AnyOn, Valid, Value, Execute;
      BranchMeans(F, Value(), insn);
      var taken := FindEnabled(insn);
      if taken { Jump(insn.imm); } else { Advance(); }
    }

    /** execute_insn, the control operations and the ones that trap. */
    method Control(insn: Insn) returns (st: Status)
      requires Valid() && !Computes(insn.op) && insn.op !in {CMP, LOAD, STORE, ATOMIC_ADD}
      modifies this`pc, this`cycles, this`status, lanes, active
      ensures Valid() && Stepped(Value(), st) == Execute(F, old(Value()), insn)
    {
      hide Computes, Valid, Value;
      st := Ok;
      if insn.op == CALL || insn.op == RET {
        hide Execute;
        st := CallOrReturn(insn);
      } else if insn.op == BR || insn.op == BR_COND {
        hide Execute;
        BranchIfEnabled(insn);
      } else {
        st := Settle(insn);
      }
    }

    /** Barriers, EXIT, and everything that stops the run. */
    method Settle(insn: Insn) returns (st: Status)
      requires Valid() && !Computes(insn.op)
      requires insn.op !in {CMP, LOAD, STORE, ATOMIC_ADD, CALL, RET, BR, BR_COND}
      modifies this`pc, this`cycles, this`status, active
      ensures Valid() && Stepped(Value(), st) == Execute(F, old(Value()), insn)
    {
      hide PushFrom, PopFrom, AccessFrom, AnyOn, Computes, Valid, Value;
      st := Ok;
      if insn.op == BAR || insn.op == BAR_CLUSTER {
        Advance();
      } else if insn.op == EXIT {
        Deactivate();
        Advance();
      } else if insn.op.Unmodelled? {
        st := NotModelled;
      } else {
        st := Trap();
      }
    }

    /** execute_insn. */
    method ExecuteInsn(insn: Insn) returns (st: Status)
      requires Valid()
      modifies this`pc, this`cycles, this`status, lanes, active, mem
      ensures Valid() && Stepped(Value(), st) == Execute(F, old(Value()), insn)
    {
      hide AccessFrom, PushFrom, PopFrom, ComputeLanes, AnyOn, Computes, Valid, Value;
      st := Ok;
      if Computes(insn.op) || insn.op == CMP {
        ComputeAll(insn);
        Advance();
      } else if insn.op in {LOAD, STORE, ATOMIC_ADD} {
        var oob := AccessAll(insn);
        if oob { st := Trap(); } else { Advance(); }
      } else {
        st := Control(insn);
      }
    }

    /** Whether the active mask is nonzero. */
    method MaskSet() returns (isSet: bool)
      requires Valid()
      ensures isSet == Value().AnyActive()
    {
      for l := 0 to WARP_SIZE
        invariant forall k :: 0 <= k < l ==> !active[k]
      {
        if active[l] {
          assert Value().active[l];
          isSet := true;
          return;
        }
      }
      isSet := false;
    }

    /** bvrt_step. */
    method Step() returns (st: Status)
      requires Valid()
      modifies this`pc, this`cycles, this`status, this`insns, lanes, active, mem
      ensures Valid() && Stepped(Value(), st) == Bvrt.Step(F, code, old(Value()))
    {
      hide Execute, Decode;
      var running := MaskSet();
      if !running {
        st := Halted;
      } else if pc >= 0x8000_0000 || pc >= |code| {
        status, st := Trapped, Trapped;
      } else {
        insns := insns + 1;
        st := ExecuteInsn(Decode(code[pc]));
      }
    }

    /** bvrt_run. */
    method Run(max: nat) returns (st: Status)
      requires Valid()
      modifies this`pc, this`cycles, this`status, this`insns, lanes, active, mem
      ensures Valid() && Stepped(Value(), st) == Bvrt.Run(F, code, old(Value()), max)
    {
      ghost var start := Value();
      hide Bvrt.Step, Valid, Device.AnyActive;
      var running := MaskSet();
      while running && insns < max
        invariant Valid() && running == Value().AnyActive()
        invariant Bvrt.Run(F, code, start, max) == Bvrt.Run(F, code, Value(), max)
        decreases max - insns
      {
        ghost var was := Value();
        assert was.insns == insns;
        st := Step();
        if st != Ok {
          return;
        }
        assert Value().insns == insns;
        running := MaskSet();
      }
      st := if running then Timeout else Halted;
    }
  }

  lemma BranchMeans(F: Fpu, d: Device, insn: Insn)
    requires d.Valid() && insn.op in {BR, BR_COND}
    ensures Execute(F, d, insn)
            == if AnyOn(d, insn) then Stepped(d.(pc := Target(d.pc, insn.imm)), Ok) else Bvrt.Advance(d)
  {
    hide AnyOn, PushFrom, PopFrom, AccessFrom, ComputeLanes;
  }

  lemma CallMeans(F: Fpu, d: Device, insn: Insn)
    requires d.Valid()
    ensures insn.op == CALL ==>
              var (e, full) := PushFrom(d, insn, 0);
              Execute(F, d, insn) == if full then Bvrt.Trap(e) else Stepped(e.(pc := Target(d.pc, insn.imm)), Ok)
    ensures insn.op == RET ==>
              var (e, empty) := PopFrom(d, 0);
              Execute(F, d, insn) == if empty then Bvrt.Trap(e) else Stepped(e, Ok)
  {
    hide AnyOn, PushFrom, PopFrom, AccessFrom, ComputeLanes;
  }

  lemma ComputeKeepsLane(F: Fpu, insn: Insn, w: Lane, l: nat, cycles: Word)
    requires w.Valid()
    ensures ComputeLane(F, insn, w, l, cycles).Valid()
  {
    hide Result, Compare;
  }
}
