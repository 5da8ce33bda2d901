/** Effects lane by lane: serialised atomic additions, the bounds test, and selection. */
module BvrtLanes {
  import opened Bits
  import opened BradVector
  import opened Bvrt
  import opened BitLaws
  import opened BvrtLaws

  // ---------- Atomic additions ----------

  /** What lane l adds. */
  function Addend(d: Device, i: Insn, l: nat): Word
    requires d.Valid() && l < |d.lanes|
  {
    if On(d, i, l) then GetS(d.lanes[l], i.src2) else 0
  }

  /** What lanes l up to k add together. */
  function AddedBetween(d: Device, i: Insn, l: nat, k: nat): nat
    requires d.Valid() && l <= k <= |d.lanes|
    decreases k - l
  {
    if l == k then 0 else Addend(d, i, l) + AddedBetween(d, i, l + 1, k)
  }

  /** Lane l's additions do not depend on what earlier lanes received. */
  lemma {:induction false} AddedSame(d: Device, e: Device, i: Insn, l: nat, k: nat)
    requires d.Valid() && e.Valid() && |d.lanes| == |e.lanes| && d.active == e.active && l <= k <= |d.lanes|
    requires forall j :: l <= j < |d.lanes| ==> d.lanes[j] == e.lanes[j]
    ensures AddedBetween(d, i, l, k) == AddedBetween(e, i, l, k)
    decreases k - l
  {
    hide PredOk;
    if l < k {
      assert On(d, i, l) == On(e, i, l);
      AddedSame(d, e, i, l + 1, k);
    }
  }

  function Plus32(a: Word, n: nat): Word { (a + n) % WORD }

  lemma PlusTwice(a: Word, m: nat, n: nat)
    ensures Plus32(Plus32(a, m), n) == Plus32(a, m + n) && Plus32(a, 0) == a
  {
  }

  lemma LoadStored(mem: seq<Byte>, addr: int, v: Word)
    requires 0 <= addr && addr + 4 <= |mem|
    ensures Load32(Store32(mem, addr, v), addr) == v
  {
    ReadWritten(mem, addr, v);
  }

  /**
    When all enabled lanes add to one word, the lanes take turns: the word ends as its old value
    plus everything added, and each lane receives the value left by the lanes before it.
   */
  lemma {:induction false} AtomicAll(d: Device, i: Insn, l: nat, addr: int)
    requires d.Valid() && l <= |d.lanes| && i.op == ATOMIC_ADD
    requires forall k :: l <= k < |d.lanes| && On(d, i, k) ==> Address(i, d.lanes[k]) == addr
    requires 0 <= addr && addr + 4 <= |d.mem| < TWO_64
    ensures var (e, oob) := AccessFrom(d, i, l);
            var was := Load32(d.mem, addr);
            && !oob && e.mem == Store32(d.mem, addr, Plus32(was, AddedBetween(d, i, l, |d.lanes|)))
            && forall k :: 0 <= k < |d.lanes| ==>
                 e.lanes[k] == if k >= l && On(d, i, k)
                               then SetS(d.lanes[k], i.dst, Plus32(was, AddedBetween(d, i, l, k)))
                               else d.lanes[k]
    decreases |d.lanes| - l, 1
  {
    hide PredOk, Load32, Store32, Address, SetS, GetS, AddedBetween, Plus32, AccessLane;
    var was := Load32(d.mem, addr);
    PlusTwice(was, 0, 0);
    NoneAdded(d, i, |d.lanes|);
    if l == |d.lanes| {
      StoreOwn(d.mem, addr);
    } else if !On(d, i, l) {
      AtomicAll(d, i, l + 1, addr);
      forall k | l < k <= |d.lanes| ensures AddedBetween(d, i, l, k) == AddedBetween(d, i, l + 1, k) {
        AddedStep(d, d, i, l, k);
      }
    } else {
      AtomicTurn(d, i, l, addr);
      NoneAdded(d, i, l);
    }
  }

  /** What the lanes before each lane add. */
  ghost predicate Sums(d: Device, i: Insn, sums: seq<nat>)
    requires d.Valid() && i.src2 < 256
  {
    && |sums| == |d.lanes| + 1 && sums[0] == 0
    && forall k :: 0 <= k < |d.lanes| ==>
         sums[k + 1] == sums[k] + if Enabled(d, i, k) then d.lanes[k].s[i.src2] else 0
  }

  lemma {:induction false} SumsAre(d: Device, i: Insn, sums: seq<nat>, k: nat)
    requires d.Valid() && i.src2 < 256 && Sums(d, i, sums) && k <= |d.lanes|
    ensures AddedBetween(d, i, 0, k) == sums[k]
  {
    EnabledIsOn(d, i);
    hide Enabled, On;
    if k > 0 {
      SumsAre(d, i, sums, k - 1);
      OneMore(d, i, 0, k - 1);
    } else {
      NoneAdded(d, i, 0);
    }
  }

  lemma {:induction false} OneMore(d: Device, i: Insn, l: nat, k: nat)
    requires d.Valid() && l <= k < |d.lanes|
    ensures AddedBetween(d, i, l, k + 1) == AddedBetween(d, i, l, k) + Addend(d, i, k)
    decreases k - l
  {
    hide Addend;
    if l < k { OneMore(d, i, l + 1, k); } else { NoneAdded(d, i, l); }
  }

  /**
    When all enabled lanes add to one word of memory, it ends as its old value plus everything
    added modulo 2^32, each enabled lane receives the value left by the lanes before it, and
    nothing else changes.
   */
  lemma AtomicTotals(d: Device, i: Insn, addr: nat, sums: seq<nat>)
    requires d.Valid() && i.op == ATOMIC_ADD && 0 < i.dst < 256 && i.src1 < 256 && i.src2 < 256 && Sums(d, i, sums)
    requires forall k :: 0 <= k < |d.lanes| && Enabled(d, i, k) ==> PlaceOf(i, d.lanes[k]) == addr
    requires addr + 4 <= |d.mem| < TWO_64
    ensures var (e, oob) := AccessFrom(d, i, 0);
            var was := FourBytes(d.mem, addr);
            && !oob && |e.mem| == |d.mem| && FourBytes(e.mem, addr) == (was + sums[|d.lanes|]) % 0x1_0000_0000
            && (forall k :: 0 <= k < |d.mem| && !(addr <= k < addr + 4) ==> e.mem[k] == d.mem[k])
            && forall k :: 0 <= k < |d.lanes| ==>
                 e.lanes[k] == if Enabled(d, i, k)
                               then d.lanes[k].(s := d.lanes[k].s[i.dst := (was + sums[k]) % 0x1_0000_0000])
                               else d.lanes[k]
  {
    EnabledIsOn(d, i);
    SumsLength(d, i, sums);
    hide Enabled, On, PlaceOf, Address, AccessFrom, FourBytes, Read32, Write32, Sums;
    forall k | 0 <= k < |d.lanes| ensures Address(i, d.lanes[k]) == PlaceOf(i, d.lanes[k]) { AddressIs(i, d.lanes[k]); }
    AtomicInTurn(d, i, addr, sums);
    LittleEndian(d.mem, addr, Plus32(Load32(d.mem, addr), sums[|d.lanes|]));
  }

  lemma AtomicInTurn(d: Device, i: Insn, addr: nat, sums: seq<nat>)
    requires d.Valid() && i.op == ATOMIC_ADD && i.src2 < 256 && Sums(d, i, sums) && |sums| == |d.lanes| + 1
    requires forall k :: 0 <= k < |d.lanes| && On(d, i, k) ==> Address(i, d.lanes[k]) == addr
    requires addr + 4 <= |d.mem| < TWO_64
    ensures var (e, oob) := AccessFrom(d, i, 0);
            var was := Load32(d.mem, addr);
            && !oob && |e.lanes| == |d.lanes| && e.mem == Store32(d.mem, addr, Plus32(was, sums[|d.lanes|]))
            && forall k :: 0 <= k < |d.lanes| ==>
                 e.lanes[k] == if On(d, i, k) then SetS(d.lanes[k], i.dst, Plus32(was, sums[k])) else d.lanes[k]
  {
    hide On, Address, AccessFrom, Load32, Store32, SetS, Plus32, AddedBetween, Sums;
    AtomicAll(d, i, 0, addr);
    forall k | 0 <= k <= |d.lanes| ensures AddedBetween(d, i, 0, k) == sums[k] { SumsAre(d, i, sums, k); }
  }

  lemma SumsLength(d: Device, i: Insn, sums: seq<nat>)
    requires d.Valid() && i.src2 < 256 && Sums(d, i, sums)
    ensures |sums| == |d.lanes| + 1
  {
  }

  lemma NoneAdded(d: Device, i: Insn, l: nat)
    requires d.Valid() && l <= |d.lanes|
    ensures AddedBetween(d, i, l, l) == 0
  {
  }

  /** Lane l's part of a range, when the later lanes are the same on both devices. */
  lemma AddedStep(d: Device, e: Device, i: Insn, l: nat, k: nat)
    requires d.Valid() && e.Valid() && |d.lanes| == |e.lanes| && d.active == e.active && l < k <= |d.lanes|
    requires forall j :: l < j < |d.lanes| ==> d.lanes[j] == e.lanes[j]
    ensures AddedBetween(d, i, l, k) == Addend(d, i, l) + AddedBetween(e, i, l + 1, k)
  {
    hide PredOk;
    AddedSame(d, e, i, l + 1, k);
  }

  /** One lane's turn, and then the others'. */
  lemma {:induction false} AtomicTurn(d: Device, i: Insn, l: nat, addr: int)
    requires d.Valid() && l < |d.lanes| && i.op == ATOMIC_ADD && On(d, i, l)
    requires forall k :: l <= k < |d.lanes| && On(d, i, k) ==> Address(i, d.lanes[k]) == addr
    requires 0 <= addr && addr + 4 <= |d.mem| < TWO_64
    ensures var (e, oob) := AccessFrom(d, i, l);
            var was := Load32(d.mem, addr);
            && !oob && e.mem == Store32(d.mem, addr, Plus32(was, AddedBetween(d, i, l, |d.lanes|)))
            && e.lanes[l] == SetS(d.lanes[l], i.dst, was)
            && forall k :: 0 <= k < |d.lanes| && k != l ==>
                 e.lanes[k] == if k > l && On(d, i, k)
                               then SetS(d.lanes[k], i.dst, Plus32(was, AddedBetween(d, i, l, k)))
                               else d.lanes[k]
    decreases |d.lanes| - l, 0
  {
    hide PredOk, Load32, Store32, Address, SetS, GetS, AddedBetween, Plus32, AccessLane;
    var was, v := Load32(d.mem, addr), GetS(d.lanes[l], i.src2);
    var (w, mem) := AccessLane(i, d.lanes[l], d.mem);
    AtomicLane(i, d.lanes[l], d.mem);
    SetKeepsValid(d.lanes[l], i.dst, was);
    var e := d.(lanes := d.lanes[l := w], mem := mem);
    forall k | l + 1 <= k < |d.lanes| ensures On(e, i, k) == On(d, i, k) { }
    AtomicAll(e, i, l + 1, addr);
    LoadStored(d.mem, addr, Plus32(was, v));
    forall k | l < k <= |d.lanes|
      ensures Plus32(Plus32(was, v), AddedBetween(e, i, l + 1, k)) == Plus32(was, AddedBetween(d, i, l, k))
    {
      AddedStep(d, e, i, l, k);
      PlusTwice(was, v, AddedBetween(e, i, l + 1, k));
    }
    StoreAgain(d.mem, addr, Plus32(was, v), Plus32(was, AddedBetween(d, i, l, |d.lanes|)));
  }

  lemma AtomicLane(i: Insn, w: Lane, mem: seq<Byte>)
    requires i.op == ATOMIC_ADD
    ensures var was := Load32(mem, Address(i, w));
            AccessLane(i, w, mem)
            == (SetS(w, i.dst, was), Store32(mem, Address(i, w), Plus32(was, GetS(w, i.src2))))
  {
    hide Load32, Store32, Address, SetS, GetS;
  }

  lemma SetKeepsValid(w: Lane, r: nat, v: Word)
    requires w.Valid()
    ensures SetS(w, r, v).Valid()
  {
  }

  lemma StoreAgain(mem: seq<Byte>, addr: int, v: Word, u: Word)
    ensures Store32(Store32(mem, addr, v), addr, u) == Store32(mem, addr, u)
  {
  }

  lemma StoreOwn(mem: seq<Byte>, addr: int)
    requires 0 <= addr && addr + 4 <= |mem|
    ensures Store32(mem, addr, Load32(mem, addr)) == mem
  {
    DigitsBack(mem[addr] as int, mem[addr + 1] as int, mem[addr + 2] as int, mem[addr + 3] as int);
  }

  lemma DigitsBack(a: nat, b: nat, c: nat, e: nat)
    requires a < 0x100 && b < 0x100 && c < 0x100 && e < 0x100
    ensures var v := a + 0x100 * b + 0x1_0000 * c + 0x100_0000 * e;
            v % 0x100 == a && v / 0x100 % 0x100 == b && v / 0x1_0000 % 0x100 == c && v / 0x100_0000 == e
  {
    var v := a + 0x100 * b + 0x1_0000 * c + 0x100_0000 * e;
    assert v / 0x100 == b + 0x100 * c + 0x1_0000 * e;
    assert v / 0x1_0000 == c + 0x100 * e;
  }

  // ---------- Bounds ----------

  /** The four bytes at the address lie in memory. */
  predicate InMemory(mem: seq<Byte>, addr: int) { 0 <= addr && addr + 4 <= |mem| }

  /**
    The bounds test is right for every lane except at addresses -4 to -1, the last four before
    2^64: there the end of the access wraps and passes, if memory is longer than it.
   */
  lemma BoundsTestIff(mem: seq<Byte>, i: Insn, w: Lane)
    requires i.Encodable() && |mem| <= TWO_64 / 2
    ensures var addr := Address(i, w);
            (OutOfBounds(mem, addr) <==> !InMemory(mem, addr)) <==> !(-4 <= addr < 0 && addr + 4 <= |mem|)
  {
    hide GetS, Insn.Encodable;
    ImmediateRange(i);
  }

  lemma ImmediateRange(i: Insn)
    requires i.Encodable()
    ensures -128 <= i.imm < 128
  {
    hide OpCode, OpOf;
  }

  /** Right after a launch with memory, a load from [S0 - 4] does not trap and loads 0 in the model. */
  lemma WrappedLoadPasses(mem: seq<Byte>)
    requires |mem| <= TWO_64 / 2
    ensures var i, d := Insn(LOAD, 0, 20, 0, 0, -4, 0, 0), Launch(1, 0, [], mem);
            Address(i, d.lanes[0]) == -4 && !InMemory(mem, -4) && !AccessFrom(d, i, 0).1
  {
    var i, d := Insn(LOAD, 0, 20, 0, 0, -4, 0, 0), Launch(1, 0, [], mem);
    assert Address(i, d.lanes[0]) == -4;
    assert !OutOfBounds(mem, -4);
    hide Address, OutOfBounds, AccessLane, Launch;
  }

  // ---------- Selection ----------

  function Selected(w: Lane, i: Insn): Word
    requires i.pred > 0
  {
    if GetP(w, i.pred - 1) != 0 then GetS(w, i.src1) else GetS(w, i.src2)
  }

  /**
    SEL is documented as picking its second source where the predicate is false. But the predicate
    also disables those lanes: they get the documented value exactly when they held it already.
   */
  lemma SelectsIff(F: Fpu, d: Device, i: Insn, l: nat)
    requires d.Valid() && l < |d.lanes| && d.active[l] && i.op == SEL && i.pred > 0 && 0 < i.dst < SCALAR_REGS
    ensures GetS(ComputeLanes(F, d, i)[l], i.dst) == Selected(d.lanes[l], i)
            <==> GetP(d.lanes[l], i.pred - 1) != 0 || GetS(d.lanes[l], i.dst) == GetS(d.lanes[l], i.src2)
  {
    hide IntegerResult;
  }

  /** A fresh lane whose predicate is false does not get the second source. */
  lemma SelectMisses(F: Fpu)
    ensures var d := Launch(1, 0, [5], []);
            var i := Insn(SEL, 1, 20, 17, 16, 0, 0, 0);
            Selected(d.lanes[0], i) == 5 && GetS(ComputeLanes(F, d, i)[0], 20) == 0
  {
    hide IntegerResult;
  }
}
