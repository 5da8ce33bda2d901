/**
  Lane uniformity: a program that never looks at a register on which the lanes may differ
  runs on the 32-lane warp exactly as on a machine of one lane.
 */
module BvrtUniform {
  import opened Bits
  import opened BradVector
  import opened Bvrt

  // ---------- The relation ----------

  /** Two lanes agree except on the registers in dirty. */
  ghost predicate LaneAgrees(w: Lane, v: Lane, dirty: set<nat>) {
    && w.Valid() && v.Valid() && w.p == v.p && w.ret == v.ret && w.retsp == v.retsp
    && forall r :: 0 <= r < SCALAR_REGS && r !in dirty ==> w.s[r] == v.s[r]
  }

  /** Every lane of d agrees with the single lane of u, and everything shared is equal. */
  ghost predicate Agree(d: Device, u: Device, dirty: set<nat>) {
    && d.Valid() && u.Valid() && |u.lanes| == 1
    && d.pc == u.pc && d.cycles == u.cycles && d.mem == u.mem && d.insns == u.insns && d.status == u.status
    && forall l :: 0 <= l < |d.lanes| ==> d.active[l] == u.active[0] && LaneAgrees(d.lanes[l], u.lanes[0], dirty)
  }

  /** The registers that an instruction may read. */
  function Reads(i: Insn): set<nat> {
    (if Computes(i.op) || i.op in {CMP, LOAD, STORE} then {i.src1} else {})
    + (if FloatBinary(i.op) || Integer(i.op) || i.op in {MAD, SEL, CMP} then {i.src2} else {})
    + (if i.op in {MAD, IMAD, STORE} then {i.dst} else {})
  }

  /** Operations whose effect does not depend on the lane index. */
  predicate Uniform(op: Op) { op !in {LANE_ID, ATOMIC_ADD} && !op.Unmodelled? }

  /** The registers still dirty after an instruction. */
  function DirtyAfter(i: Insn, u: Device, dirty: set<nat>): set<nat>
    requires u.Valid()
  {
    if (Computes(i.op) || i.op == LOAD) && On(u, i, 0) then dirty - {i.dst} else dirty
  }

  // ---------- Lane by lane ----------

  lemma SameGet(w: Lane, v: Lane, dirty: set<nat>, r: nat)
    requires LaneAgrees(w, v, dirty) && r !in dirty
    ensures GetS(w, r) == GetS(v, r)
  {
  }

  lemma SetAgrees(w: Lane, v: Lane, dirty: set<nat>, r: nat, x: Word)
    requires LaneAgrees(w, v, dirty)
    ensures LaneAgrees(SetS(w, r, x), SetS(v, r, x), dirty)
    ensures 0 < r || r !in dirty ==> LaneAgrees(SetS(w, r, x), SetS(v, r, x), dirty - {r})
  {
  }

  lemma ComputeAgrees(F: Fpu, i: Insn, w: Lane, v: Lane, l: nat, k: nat, cycles: Word, dirty: set<nat>)
    requires LaneAgrees(w, v, dirty) && Reads(i) !! dirty && i.op != LANE_ID && 0 !in dirty
    requires Computes(i.op) || i.op == CMP
    ensures LaneAgrees(ComputeLane(F, i, w, l, cycles), ComputeLane(F, i, v, k, cycles),
                       if Computes(i.op) then dirty - {i.dst} else dirty)
  {
    hide IntegerResult;
    SameGet(w, v, dirty, i.src1);
    if i.src2 !in dirty { SameGet(w, v, dirty, i.src2); }
    if i.dst !in dirty { SameGet(w, v, dirty, i.dst); }
    if i.op == CMP {
      assert Compare(i.flags, GetS(w, i.src1), GetS(w, i.src2)) == Compare(i.flags, GetS(v, i.src1), GetS(v, i.src2));
    } else {
      SameResult(F, i, w, v, l, k, cycles, dirty);
      SetAgrees(w, v, dirty, i.dst, Result(F, i, v, k, cycles));
    }
  }

  lemma SameResult(F: Fpu, i: Insn, w: Lane, v: Lane, l: nat, k: nat, cycles: Word, dirty: set<nat>)
    requires LaneAgrees(w, v, dirty) && Reads(i) !! dirty && i.op != LANE_ID && Computes(i.op)
    ensures Result(F, i, w, l, cycles) == Result(F, i, v, k, cycles)
  {
    hide IntegerResult;
    SameGet(w, v, dirty, i.src1);
    if i.src2 in Reads(i) { SameGet(w, v, dirty, i.src2); }
    if i.dst in Reads(i) { SameGet(w, v, dirty, i.dst); }
    if Integer(i.op) && i.op != IMAD { ThirdUnused(i.op, GetS(w, i.src1), GetS(w, i.src2), GetS(w, i.dst), GetS(v, i.dst)); }
  }

  lemma ThirdUnused(op: Op, a: Word, b: Word, c: Word, e: Word)
    requires Integer(op) && op != IMAD
    ensures IntegerResult(op, a, b, c) == IntegerResult(op, a, b, e)
  {
    hide PopCount, HighBit, Bits.And, Bits.Or, Bits.Xor, Bits.Not, Shl, Shr, Quotient;
  }

  // ---------- Memory ----------

  /** Storing a word twice is storing it once. */
  lemma StoreTwice(mem: seq<Byte>, addr: int, v: Word)
    ensures Store32(Store32(mem, addr, v), addr, v) == Store32(mem, addr, v)
  {
  }

  lemma SameAddress(i: Insn, w: Lane, v: Lane, dirty: set<nat>)
    requires LaneAgrees(w, v, dirty) && i.src1 !in dirty
    ensures Address(i, w) == Address(i, v)
  {
    SameGet(w, v, dirty, i.src1);
  }

  lemma OffAccess(d: Device, i: Insn, l: nat)
    requires d.Valid() && l <= |d.lanes| && forall k :: l <= k < |d.lanes| ==> !On(d, i, k)
    ensures AccessFrom(d, i, l) == (d, false)
    decreases |d.lanes| - l
  {
    if l < |d.lanes| { OffAccess(d, i, l + 1); }
  }

  /** When all lanes load from one address in bounds, all get the same word. */
  lemma {:induction false} LoadAll(d: Device, i: Insn, l: nat, addr: int)
    requires d.Valid() && l <= |d.lanes| && i.op == LOAD && !OutOfBounds(d.mem, addr)
    requires forall k :: l <= k < |d.lanes| ==> On(d, i, k) && Address(i, d.lanes[k]) == addr
    ensures var (e, oob) := AccessFrom(d, i, l);
            && !oob && e.mem == d.mem && e.status == d.status
            && forall k :: 0 <= k < |d.lanes| ==>
                 e.lanes[k] == if k < l then d.lanes[k] else SetS(d.lanes[k], i.dst, Load32(d.mem, addr))
    decreases |d.lanes| - l
  {
    hide Load32, OutOfBounds;
    if l < |d.lanes| {
      var next := d.(lanes := d.lanes[l := SetS(d.lanes[l], i.dst, Load32(d.mem, addr))]);
      assert AccessLane(i, d.lanes[l], d.mem) == (next.lanes[l], d.mem);
      forall k | l + 1 <= k < |d.lanes| ensures On(next, i, k) && Address(i, next.lanes[k]) == addr {
        assert On(d, i, k);
      }
      LoadAll(next, i, l + 1, addr);
    }
  }

  /** When all lanes store one word to one address in bounds, it is stored. */
  lemma {:induction false} StoreAll(d: Device, i: Insn, l: nat, addr: int, v: Word)
    requires d.Valid() && l <= |d.lanes| && i.op == STORE && !OutOfBounds(d.mem, addr)
    requires forall k :: l <= k < |d.lanes| ==>
               On(d, i, k) && Address(i, d.lanes[k]) == addr && GetS(d.lanes[k], i.dst) == v
    ensures AccessFrom(d, i, l)
            == (if l < |d.lanes| then d.(mem := Store32(d.mem, addr, v)) else d, false)
    decreases |d.lanes| - l
  {
    hide Store32, Address;
    if l < |d.lanes| {
      assert On(d, i, l);
      var next := d.(lanes := d.lanes[l := d.lanes[l]], mem := Store32(d.mem, addr, v));
      assert next.lanes == d.lanes;
      forall k | l + 1 <= k < |d.lanes| ensures On(next, i, k) {
        assert On(d, i, k);
      }
      StoreAll(next, i, l + 1, addr, v);
      StoreTwice(d.mem, addr, v);
    }
  }

  /** All lanes make the access of the single lane. */
  ghost predicate SameAccess(d: Device, u: Device, i: Insn)
    requires d.Valid() && u.Valid()
  {
    forall l :: 0 <= l < |d.lanes| ==>
      && On(d, i, l) == On(u, i, 0) && Address(i, d.lanes[l]) == Address(i, u.lanes[0])
      && (i.op == STORE ==> GetS(d.lanes[l], i.dst) == GetS(u.lanes[0], i.dst))
  }

  lemma AgreeingAccess(d: Device, u: Device, i: Insn, dirty: set<nat>)
    requires Agree(d, u, dirty) && Reads(i) !! dirty && i.op in {LOAD, STORE}
    ensures SameAccess(d, u, i) && SameAccess(u, u, i)
  {
    hide Address, GetS, PredOk;
    forall l | 0 <= l < |d.lanes|
      ensures On(d, i, l) == On(u, i, 0) && Address(i, d.lanes[l]) == Address(i, u.lanes[0])
      ensures i.op == STORE ==> GetS(d.lanes[l], i.dst) == GetS(u.lanes[0], i.dst)
    {
      SameOn(d, u, i, dirty, l);
      SameAddress(i, d.lanes[l], u.lanes[0], dirty);
      if i.op == STORE { SameGet(d.lanes[l], u.lanes[0], dirty, i.dst); }
    }
  }

  lemma LoadAgrees(d: Device, u: Device, i: Insn, dirty: set<nat>)
    requires Agree(d, u, dirty) && SameAccess(d, u, i) && SameAccess(u, u, i) && 0 !in dirty && i.op == LOAD
    requires On(u, i, 0) && !OutOfBounds(u.mem, Address(i, u.lanes[0]))
    ensures var (e, f) := (AccessFrom(d, i, 0), AccessFrom(u, i, 0));
            !e.1 && !f.1 && Agree(e.0, f.0, dirty - {i.dst})
  {
    hide OutOfBounds, Load32, Address, SetS, GetS, PredOk, AccessFrom, LaneAgrees;
    var v, addr := u.lanes[0], Address(i, u.lanes[0]);
    LoadAll(d, i, 0, addr);
    LoadAll(u, i, 0, addr);
    forall l | 0 <= l < |d.lanes|
      ensures LaneAgrees(AccessFrom(d, i, 0).0.lanes[l], AccessFrom(u, i, 0).0.lanes[0], dirty - {i.dst})
    {
      SetAgrees(d.lanes[l], v, dirty, i.dst, Load32(d.mem, addr));
    }
  }

  lemma StoreAgrees(d: Device, u: Device, i: Insn, dirty: set<nat>)
    requires Agree(d, u, dirty) && SameAccess(d, u, i) && SameAccess(u, u, i) && i.op == STORE
    requires On(u, i, 0) && !OutOfBounds(u.mem, Address(i, u.lanes[0]))
    ensures var (e, f) := (AccessFrom(d, i, 0), AccessFrom(u, i, 0));
            !e.1 && !f.1 && Agree(e.0, f.0, dirty)
  {
    hide OutOfBounds, Store32, Address, GetS, PredOk, AccessFrom;
    StoreAll(d, i, 0, Address(i, u.lanes[0]), GetS(u.lanes[0], i.dst));
    StoreAll(u, i, 0, Address(i, u.lanes[0]), GetS(u.lanes[0], i.dst));
  }

  lemma FirstLaneDecides(d: Device, u: Device, i: Insn)
    requires d.Valid() && u.Valid() && d.mem == u.mem && SameAccess(d, u, i)
    ensures !On(u, i, 0) ==> AccessFrom(d, i, 0) == (d, false)
    ensures On(u, i, 0) && OutOfBounds(u.mem, Address(i, u.lanes[0])) ==> AccessFrom(d, i, 0) == (d, true)
  {
    hide OutOfBounds, Address, GetS, PredOk;
    assert On(d, i, 0) == On(u, i, 0);
    if !On(u, i, 0) { OffAccess(d, i, 0); }
  }

  lemma AccessAgrees(d: Device, u: Device, i: Insn, dirty: set<nat>)
    requires Agree(d, u, dirty) && Reads(i) !! dirty && 0 !in dirty && i.op in {LOAD, STORE}
    ensures var (e, f) := (AccessFrom(d, i, 0), AccessFrom(u, i, 0));
            e.1 == f.1 && Agree(e.0, f.0, if e.1 then dirty else DirtyAfter(i, u, dirty))
  {
    hide OutOfBounds, Address, GetS, On, AccessFrom, SameAccess, Agree;
    AgreeingAccess(d, u, i, dirty);
    AgreeShape(d, u, dirty);
    FirstLaneDecides(d, u, i);
    FirstLaneDecides(u, u, i);
    if On(u, i, 0) && !OutOfBounds(u.mem, Address(i, u.lanes[0])) {
      if i.op == LOAD { LoadAgrees(d, u, i, dirty); } else { StoreAgrees(d, u, i, dirty); }
    }
  }

  lemma AgreeShape(d: Device, u: Device, dirty: set<nat>)
    requires Agree(d, u, dirty)
    ensures d.Valid() && u.Valid() && |u.lanes| == 1 && d.mem == u.mem && d.pc == u.pc && d.insns == u.insns
  {
  }

  lemma SameOn(d: Device, u: Device, i: Insn, dirty: set<nat>, l: nat)
    requires Agree(d, u, dirty) && l < |d.lanes|
    ensures On(d, i, l) == On(u, i, 0)
  {
    assert LaneAgrees(d.lanes[l], u.lanes[0], dirty);
  }

  // ---------- Control ----------

  lemma AnyOnAgrees(d: Device, u: Device, i: Insn, dirty: set<nat>)
    requires Agree(d, u, dirty)
    ensures AnyOn(d, i) == AnyOn(u, i) && d.AnyActive() == u.AnyActive()
  {
    hide PredOk, LaneAgrees;
    forall l | 0 <= l < |d.lanes| ensures On(d, i, l) == On(u, i, 0) { SameOn(d, u, i, dirty, l); }
    assert On(d, i, 0) == On(u, i, 0);
    assert d.active[0] == u.active[0];
  }

  function Pushed(w: Lane, ra: Word): Lane
    requires w.Valid() && w.retsp < MAX_RET
  {
    w.(ret := w.ret[w.retsp := ra], retsp := w.retsp + 1)
  }

  /** When all lanes call with the same stack depth, all push, or the first one traps. */
  lemma {:induction false} PushAll(d: Device, i: Insn, l: nat, on: bool, depth: nat)
    requires d.Valid() && l <= |d.lanes| && depth <= MAX_RET
    requires forall k :: l <= k < |d.lanes| ==> On(d, i, k) == on && d.lanes[k].retsp == depth
    ensures var (e, full) := PushFrom(d, i, l);
            && full == (on && depth == MAX_RET && l < |d.lanes|)
            && (full || !on ==> e == d)
            && (on && !full ==> e == d.(lanes := e.lanes) && forall k :: 0 <= k < |d.lanes| ==>
                  e.lanes[k] == if k < l then d.lanes[k] else Pushed(d.lanes[k], (d.pc + 1) % WORD))
    decreases |d.lanes| - l
  {
    hide PredOk;
    if l < |d.lanes| {
      assert On(d, i, l) == on;
      if !on {
        PushAll(d, i, l + 1, on, depth);
      } else if depth < MAX_RET {
        var next := d.(lanes := d.lanes[l := Pushed(d.lanes[l], (d.pc + 1) % WORD)]);
        forall k | l + 1 <= k < |d.lanes| ensures On(next, i, k) == on && next.lanes[k].retsp == depth {
          assert On(d, i, k) == on;
        }
        PushAll(next, i, l + 1, on, depth);
      }
    }
  }

  function Popped(w: Lane): Lane
    requires w.Valid() && w.retsp > 0
  {
    w.(retsp := w.retsp - 1)
  }

  /** When all active lanes have equal stacks, all pop and continue at the common return address. */
  lemma {:induction false} PopAll(d: Device, l: nat, on: bool, ret: seq<Word>, depth: nat)
    requires d.Valid() && l <= |d.lanes| && depth <= MAX_RET == |ret|
    requires forall k :: l <= k < |d.lanes| ==> d.active[k] == on && d.lanes[k].ret == ret && d.lanes[k].retsp == depth
    ensures var (e, empty) := PopFrom(d, l);
            && empty == (on && depth == 0 && l < |d.lanes|)
            && (empty || !on ==> e == d)
            && (on && !empty ==>
                  && e == d.(lanes := e.lanes, pc := e.pc)
                  && e.pc == (if l < |d.lanes| then ret[depth - 1] else d.pc)
                  && forall k :: 0 <= k < |d.lanes| ==>
                       e.lanes[k] == if k < l then d.lanes[k] else Popped(d.lanes[k]))
    decreases |d.lanes| - l
  {
    if l < |d.lanes| {
      if !on {
        PopAll(d, l + 1, on, ret, depth);
      } else if depth > 0 {
        PopAll(d.(lanes := d.lanes[l := Popped(d.lanes[l])], pc := ret[depth - 1]), l + 1, on, ret, depth);
      }
    }
  }

  lemma CallAgrees(d: Device, u: Device, i: Insn, dirty: set<nat>)
    requires Agree(d, u, dirty)
    ensures var (e, f) := (PushFrom(d, i, 0), PushFrom(u, i, 0));
            e.1 == f.1 && Agree(e.0, f.0, dirty)
  {
    hide PredOk, PushFrom;
    var v := u.lanes[0];
    forall l | 0 <= l < |d.lanes| ensures On(d, i, l) == On(u, i, 0) { SameOn(d, u, i, dirty, l); }
    assert LaneAgrees(d.lanes[0], v, dirty);
    PushAll(d, i, 0, On(u, i, 0), v.retsp);
    PushAll(u, i, 0, On(u, i, 0), v.retsp);
  }

  lemma RetAgrees(d: Device, u: Device, dirty: set<nat>)
    requires Agree(d, u, dirty)
    ensures var (e, f) := (PopFrom(d, 0), PopFrom(u, 0));
            e.1 == f.1 && Agree(e.0, f.0, dirty)
  {
    hide PopFrom;
    var v := u.lanes[0];
    assert LaneAgrees(d.lanes[0], v, dirty);
    PopAll(d, 0, u.active[0], v.ret, v.retsp);
    PopAll(u, 0, u.active[0], v.ret, v.retsp);
  }

  // ---------- One instruction ----------

  lemma ComputeLanesAgree(F: Fpu, d: Device, u: Device, i: Insn, dirty: set<nat>)
    requires Agree(d, u, dirty) && Reads(i) !! dirty && 0 !in dirty && i.op != LANE_ID
    requires Computes(i.op) || i.op == CMP
    ensures Agree(d.(lanes := ComputeLanes(F, d, i)), u.(lanes := ComputeLanes(F, u, i)), DirtyAfter(i, u, dirty))
  {
    hide PredOk, ComputeLane, LaneAgrees, Reads;
    var e, f := d.(lanes := ComputeLanes(F, d, i)), u.(lanes := ComputeLanes(F, u, i));
    forall l | 0 <= l < |d.lanes|
      ensures LaneAgrees(e.lanes[l], f.lanes[0], DirtyAfter(i, u, dirty))
    {
      SameOn(d, u, i, dirty, l);
      ComputeAgrees(F, i, d.lanes[l], u.lanes[0], l, 0, d.cycles, dirty);
    }
    forall l | 0 <= l < |d.lanes| ensures e.lanes[l].Valid() {
      ValidWhenAgrees(e.lanes[l], f.lanes[0], DirtyAfter(i, u, dirty));
    }
    ValidWhenAgrees(e.lanes[0], f.lanes[0], DirtyAfter(i, u, dirty));
  }

  lemma ValidWhenAgrees(w: Lane, v: Lane, dirty: set<nat>)
    requires LaneAgrees(w, v, dirty)
    ensures w.Valid() && v.Valid()
  {
  }

  lemma AdvanceAgrees(d: Device, u: Device, dirty: set<nat>)
    requires Agree(d, u, dirty)
    ensures Agree(Advance(d).dev, Advance(u).dev, dirty)
    ensures Advance(d).status == Ok && Advance(u).status == Ok
  {
    hide LaneAgrees;
  }

  /** One instruction: the warp and the single lane do the same, and dirty registers only get fewer. */
  lemma ExecuteAgrees(F: Fpu, d: Device, u: Device, i: Insn, dirty: set<nat>)
    requires Agree(d, u, dirty) && Uniform(i.op) && Reads(i) !! dirty && 0 !in dirty
    ensures Execute(F, d, i).status == Execute(F, u, i).status
    ensures var ok := Execute(F, u, i).status == Ok;
            Agree(Execute(F, d, i).dev, Execute(F, u, i).dev, if ok then DirtyAfter(i, u, dirty) else dirty)
  {
    hide PredOk, LaneAgrees, Reads, AccessFrom, PushFrom, PopFrom, ComputeLanes, Advance, Target, Agree;
    AgreeShape(d, u, dirty);
    if Computes(i.op) || i.op == CMP {
      ComputeLanesAgree(F, d, u, i, dirty);
      AdvanceAgrees(d.(lanes := ComputeLanes(F, d, i)), u.(lanes := ComputeLanes(F, u, i)), DirtyAfter(i, u, dirty));
    } else if i.op == LOAD || i.op == STORE {
      AccessAgrees(d, u, i, dirty);
      var (e, f) := (AccessFrom(d, i, 0), AccessFrom(u, i, 0));
      if e.1 { TrapAgrees(e.0, f.0, dirty); } else { AdvanceAgrees(e.0, f.0, DirtyAfter(i, u, dirty)); }
    } else {
      ControlAgrees(F, d, u, i, dirty);
    }
  }

  lemma TrapAgrees(d: Device, u: Device, dirty: set<nat>)
    requires Agree(d, u, dirty)
    ensures Agree(Trap(d).dev, Trap(u).dev, dirty)
  {
    hide LaneAgrees;
  }

  lemma JumpAgrees(d: Device, u: Device, dirty: set<nat>, pc: Word)
    requires Agree(d, u, dirty)
    ensures Agree(d.(pc := pc), u.(pc := pc), dirty)
  {
    hide LaneAgrees;
  }

  lemma ExitAgrees(d: Device, u: Device, dirty: set<nat>)
    requires Agree(d, u, dirty)
    ensures Agree(d.(active := NoneActive(|d.active|)), u.(active := NoneActive(|u.active|)), dirty)
  {
    hide LaneAgrees;
  }

  lemma ControlAgrees(F: Fpu, d: Device, u: Device, i: Insn, dirty: set<nat>)
    requires Agree(d, u, dirty) && Uniform(i.op) && !Computes(i.op) && i.op !in {CMP, LOAD, STORE}
    ensures Execute(F, d, i).status == Execute(F, u, i).status
    ensures Agree(Execute(F, d, i).dev, Execute(F, u, i).dev, dirty)
  {
    hide PredOk, LaneAgrees, PushFrom, PopFrom, ComputeLanes, Advance, Target, Agree;
    AgreeShape(d, u, dirty);
    AnyOnAgrees(d, u, i, dirty);
    AdvanceAgrees(d, u, dirty);
    TrapAgrees(d, u, dirty);
    match i.op
    case BR | BR_COND => JumpAgrees(d, u, dirty, Target(d.pc, i.imm));
    case CALL =>
      CallAgrees(d, u, i, dirty);
      var (e, f) := (PushFrom(d, i, 0), PushFrom(u, i, 0));
      TrapAgrees(e.0, f.0, dirty);
      JumpAgrees(e.0, f.0, dirty, Target(d.pc, i.imm));
    case RET =>
      RetAgrees(d, u, dirty);
      TrapAgrees(PopFrom(d, 0).0, PopFrom(u, 0).0, dirty);
    case EXIT =>
      ExitAgrees(d, u, dirty);
      AdvanceAgrees(d.(active := NoneActive(|d.active|)), u.(active := NoneActive(|u.active|)), dirty);
    case _ =>
  }
}
