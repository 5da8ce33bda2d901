/** The integer SAXPY of the demonstration page: all lanes at work, each on its own element. */
module KernelInteger {
  import opened Bits
  import opened BitLaws
  import opened BradVector
  import opened Bvrt
  import opened BvrtLaws

  function Int3(op: Op, d: nat, a: nat, b: nat): Insn { Insn(op, 0, d, a, b, 0, 0, 0) }

  function LoadAt(d: nat, a: nat): Insn { Insn(LOAD, 0, d, a, 0, 0, 0, 0) }

  function StoreAt(a: nat, v: nat): Insn { Insn(STORE, 0, v, a, 0, 0, 0, 0) }

  /** S16 = x, S17 = y, S18 = a; the lane's number is in S1. */
  const SAXPY: seq<Insn> := [
    Int3(IADD, 2, 1, 1), Int3(IADD, 2, 2, 2), Int3(IADD, 7, 16, 2), LoadAt(3, 7), Int3(IMUL, 4, 3, 18),
    Int3(IADD, 8, 17, 2), LoadAt(5, 8), Int3(IADD, 6, 4, 5), StoreAt(8, 6), Insn(EXIT, 0, 0, 0, 0, 0, 0, 0)
  ]

  ghost predicate InCode(code: seq<Code>) {
    |SAXPY| <= |code| < 0x8000_0000 && forall k :: 0 <= k < |SAXPY| ==> Decode(code[k]) == SAXPY[k]
  }

  ghost predicate AllOn(d: Device) {
    d.Valid() && |d.lanes| == 32 && forall l :: 0 <= l < 32 ==> d.active[l]
  }

  // ---------- One instruction on all lanes ----------

  lemma StepRuns(F: Fpu, code: seq<Code>, d: Device, k: nat)
    requires InCode(code) && AllOn(d) && d.pc == k < |SAXPY|
    ensures Step(F, code, d) == Execute(F, d.(insns := d.insns + 1), SAXPY[k])
  {
    hide Execute, Decode, SAXPY;
    assert d.active[0];
  }

  lemma LaneComputes(F: Fpu, d: Device, op: Op, r: nat, a: nat, b: nat, l: nat)
    requires AllOn(d) && op in {IADD, IMUL} && 0 < r < 256 && a < 256 && b < 256 && l < 32
    ensures var x := Execute(F, d, Int3(op, r, a, b));
            && x.status == Ok && AllOn(x.dev) && StepsOn(d, x.dev)
            && var was, w := d.lanes[l], x.dev.lanes[l];
               && w.s[r] == (if op == IADD then was.s[a] + was.s[b] else was.s[a] * was.s[b]) % WORD
               && forall q :: 0 <= q < 256 && q != r ==> w.s[q] == was.s[q]
  {
    hide Execute;
    var i := Int3(op, r, a, b);
    assert Enabled(d, i, l);
    assert op in COMPUTING;
    hide COMPUTING, Enabled;
    ComputesInLane(F, d, i, l, 0);
  }

  /** An addition or multiplication in every lane; all other registers stay. */
  lemma Computes3(F: Fpu, d: Device, op: Op, r: nat, a: nat, b: nat)
    requires AllOn(d) && op in {IADD, IMUL} && 0 < r < 256 && a < 256 && b < 256
    ensures var x := Execute(F, d, Int3(op, r, a, b));
            && x.status == Ok && AllOn(x.dev) && StepsOn(d, x.dev)
            && (forall l :: 0 <= l < 32 ==>
                  x.dev.lanes[l].s[r] == (if op == IADD then d.lanes[l].s[a] + d.lanes[l].s[b]
                                          else d.lanes[l].s[a] * d.lanes[l].s[b]) % WORD)
            && forall l, q :: 0 <= l < 32 && 0 <= q < 256 && q != r ==> x.dev.lanes[l].s[q] == d.lanes[l].s[q]
  {
    hide Execute, Int3, StepsOn;
    LaneComputes(F, d, op, r, a, b, 0);
    forall l | 0 <= l < 32
      ensures var x := Execute(F, d, Int3(op, r, a, b));
              && x.dev.lanes[l].s[r] == (if op == IADD then d.lanes[l].s[a] + d.lanes[l].s[b]
                                         else d.lanes[l].s[a] * d.lanes[l].s[b]) % WORD
              && forall q :: 0 <= q < 256 && q != r ==> x.dev.lanes[l].s[q] == d.lanes[l].s[q]
    {
      LaneComputes(F, d, op, r, a, b, l);
    }
  }

  /** The lanes' words, one after the other in memory. */
  ghost predicate Placed(d: Device, a: nat, base: nat)
    requires AllOn(d) && a < 256
  {
    base + 128 <= |d.mem| < 0x4000_0000 && forall l :: 0 <= l < 32 ==> d.lanes[l].s[a] == base + 4 * l
  }

  lemma OneAccess(d: Device, i: Insn, from: nat, w: Lane, mem: seq<Byte>)
    requires d.Valid() && from < |d.lanes| && On(d, i, from) && !OutOfBounds(d.mem, Address(i, d.lanes[from]))
    requires AccessLane(i, d.lanes[from], d.mem) == (w, mem) && w.Valid()
    ensures AccessFrom(d, i, from) == AccessFrom(d.(lanes := d.lanes[from := w], mem := mem), i, from + 1)
  {
    hide AccessLane, OutOfBounds, Address, On;
  }

  lemma LoadOne(d: Device, r: nat, a: nat, base: nat, from: nat)
    requires AllOn(d) && 0 < r < 256 && a < 256 && Placed(d, a, base) && from < 32
    ensures var w := d.lanes[from];
            var e := d.(lanes := d.lanes[from := w.(s := w.s[r := Read32(d.mem, base + 4 * from)])]);
            AllOn(e) && AccessFrom(d, LoadAt(r, a), from) == AccessFrom(e, LoadAt(r, a), from + 1)
  {
    hide Read32, FourBytes, AccessLane, OutOfBounds, Address, AccessFrom;
    var i, w := LoadAt(r, a), d.lanes[from];
    assert PlaceOf(i, w) == base + 4 * from;
    hide PlaceOf;
    AccessOfLane(i, w, d.mem, base + 4 * from);
    LittleEndian(d.mem, base + 4 * from, 0);
    OneAccess(d, i, from, w.(s := w.s[r := Read32(d.mem, base + 4 * from)]), d.mem);
  }

  lemma {:induction false} LoadsFrom(d: Device, r: nat, a: nat, base: nat, from: nat)
    requires AllOn(d) && 0 < r < 256 && a < 256 && r != a && Placed(d, a, base) && from <= 32
    ensures var (e, oob) := AccessFrom(d, LoadAt(r, a), from);
            && !oob && e == d.(lanes := e.lanes)
            && forall l :: 0 <= l < 32 ==>
                 e.lanes[l] == if l < from then d.lanes[l]
                               else d.lanes[l].(s := d.lanes[l].s[r := Read32(d.mem, base + 4 * l)])
    decreases 32 - from
  {
    hide Read32, On, AccessLane, OutOfBounds, Address, LoadAt;
    if from < 32 {
      var w := d.lanes[from];
      var e := d.(lanes := d.lanes[from := w.(s := w.s[r := Read32(d.mem, base + 4 * from)])]);
      LoadOne(d, r, a, base, from);
      LoadsFrom(e, r, a, base, from + 1);
    }
  }

  lemma StoreOne(d: Device, a: nat, v: nat, base: nat, from: nat) returns (mem: seq<Byte>)
    requires AllOn(d) && a < 256 && 0 < v < 256 && Placed(d, a, base) && from < 32
    ensures AccessFrom(d, StoreAt(a, v), from) == AccessFrom(d.(mem := mem), StoreAt(a, v), from + 1)
    ensures |mem| == |d.mem| && Read32(mem, base + 4 * from) == d.lanes[from].s[v]
    ensures forall k :: 0 <= k < |d.mem| && !(base + 4 * from <= k < base + 4 * from + 4) ==> mem[k] == d.mem[k]
  {
    hide Read32, FourBytes, AccessLane, OutOfBounds, Address;
    var i, w := StoreAt(a, v), d.lanes[from];
    assert PlaceOf(i, w) == base + 4 * from;
    hide PlaceOf;
    AccessOfLane(i, w, d.mem, base + 4 * from);
    assert On(d, i, from);
    mem := AccessLane(i, w, d.mem).1;
    LittleEndian(mem, base + 4 * from, 0);
    assert d.lanes[from := w] == d.lanes;
  }

  lemma {:induction false} StoresFrom(d: Device, a: nat, v: nat, base: nat, from: nat)
    requires AllOn(d) && a < 256 && 0 < v < 256 && Placed(d, a, base) && from <= 32
    ensures var (e, oob) := AccessFrom(d, StoreAt(a, v), from);
            && !oob && e == d.(mem := e.mem) && |e.mem| == |d.mem|
            && (forall l :: from <= l < 32 ==> Read32(e.mem, base + 4 * l) == d.lanes[l].s[v])
            && forall k :: 0 <= k < |d.mem| && !(base + 4 * from <= k < base + 128) ==> e.mem[k] == d.mem[k]
    decreases 32 - from
  {
    hide Read32, On, AccessLane, OutOfBounds, Address, StoreAt;
    if from < 32 {
      var mem := StoreOne(d, a, v, base, from);
      StoresFrom(d.(mem := mem), a, v, base, from + 1);
      SameWord(mem, AccessFrom(d, StoreAt(a, v), from).0.mem, base + 4 * from);
    }
  }

  lemma SameWord(m: seq<Byte>, n: seq<Byte>, at: nat)
    requires |m| == |n| && at + 4 <= |m| && forall k :: at <= k < at + 4 ==> m[k] == n[k]
    ensures Read32(m, at) == Read32(n, at)
  {
  }

  // ---------- The run ----------

  function Sum(a: Word, b: Word): Word { (a + b) % WORD }

  function Product(a: Word, b: Word): Word { a * b % WORD }

  /** What a lane's registers hold before instruction k. */
  ghost predicate LaneStage(w: Lane, k: nat, l: nat, x: nat, y: nat, a: Word, mem: seq<Byte>)
    requires w.Valid()
  {
    && w.s[1] == l && w.s[16] == x && w.s[17] == y && w.s[18] == a
    && (k == 1 ==> w.s[2] == 2 * l)
    && (k >= 2 ==> w.s[2] == 4 * l)
    && (k >= 3 ==> w.s[7] == x + 4 * l)
    && (k >= 4 ==> w.s[3] == Read32(mem, x + 4 * l))
    && (k >= 5 ==> w.s[4] == Product(Read32(mem, x + 4 * l), a))
    && (k >= 6 ==> w.s[8] == y + 4 * l)
    && (k >= 7 ==> w.s[5] == Read32(mem, y + 4 * l))
    && (k >= 8 ==> w.s[6] == Sum(Product(Read32(mem, x + 4 * l), a), Read32(mem, y + 4 * l)))
  }

  ghost predicate Stage(d: Device, k: nat, x: nat, y: nat, a: Word, mem: seq<Byte>) {
    && AllOn(d) && d.pc == k && d.insns == k && d.mem == mem
    && x + 128 <= |mem| && y + 128 <= |mem| < 0x4000_0000
    && forall l :: 0 <= l < 32 ==> LaneStage(d.lanes[l], k, l, x, y, a, mem)
  }

  /** The arithmetic instruction at k. */
  function ArithmeticAt(k: nat): Insn {
    match k
    case 0 => Int3(IADD, 2, 1, 1)
    case 1 => Int3(IADD, 2, 2, 2)
    case 2 => Int3(IADD, 7, 16, 2)
    case 4 => Int3(IMUL, 4, 3, 18)
    case 5 => Int3(IADD, 8, 17, 2)
    case _ => Int3(IADD, 6, 4, 5)
  }

  /** One register of a lane written with a sum or a product of two others. */
  ghost predicate Wrote(was: Lane, w: Lane, i: Insn)
    requires was.Valid() && w.Valid() && i.dst < 256 && i.src1 < 256 && i.src2 < 256
  {
    && w.s[i.dst] == (if i.op == IADD then Sum(was.s[i.src1], was.s[i.src2]) else Product(was.s[i.src1], was.s[i.src2]))
    && forall q :: 0 <= q < 256 && q != i.dst ==> w.s[q] == was.s[q]
  }

  lemma SmallSum(a: Word, b: Word)
    ensures a + b < 0x1_0000_0000 ==> Sum(a, b) == a + b
  {
  }

  lemma ComputeLaneStage(was: Lane, w: Lane, k: nat, l: nat, x: nat, y: nat, a: Word, mem: seq<Byte>)
    requires was.Valid() && w.Valid() && k in {0, 1, 2, 4, 5, 7} && l < 32
    requires x + 128 <= |mem| && y + 128 <= |mem| < 0x4000_0000
    requires LaneStage(was, k, l, x, y, a, mem) && Wrote(was, w, ArithmeticAt(k))
    ensures LaneStage(w, k + 1, l, x, y, a, mem)
  {
    hide Read32, Sum, Product;
    var i := ArithmeticAt(k);
    SmallSum(was.s[i.src1], was.s[i.src2]);
    assert w.s[1] == was.s[1] && w.s[16] == was.s[16] && w.s[17] == was.s[17] && w.s[18] == was.s[18];
  }

  lemma Arithmetic(k: nat)
    requires k in {0, 1, 2, 4, 5, 7}
    ensures SAXPY[k] == ArithmeticAt(k)
  {
  }

  ghost predicate AllWrote(d: Device, e: Device, i: Insn)
    requires AllOn(d) && AllOn(e) && i.dst < 256 && i.src1 < 256 && i.src2 < 256
  {
    forall l :: 0 <= l < 32 ==> Wrote(d.lanes[l], e.lanes[l], i)
  }

  lemma ComputesAll(F: Fpu, d: Device, i: Insn)
    requires AllOn(d) && i.op in {IADD, IMUL} && 0 < i.dst < 256 && i.src1 < 256 && i.src2 < 256
    requires i == Int3(i.op, i.dst, i.src1, i.src2)
    ensures var x := Execute(F, d, i); x.status == Ok && AllOn(x.dev) && StepsOn(d, x.dev) && AllWrote(d, x.dev, i)
  {
    hide Execute, StepsOn, Int3;
    Computes3(F, d, i.op, i.dst, i.src1, i.src2);
  }

  lemma LanesStage(d: Device, e: Device, k: nat, x: nat, y: nat, a: Word, mem: seq<Byte>)
    requires Stage(d, k, x, y, a, mem) && k in {0, 1, 2, 4, 5, 7} && AllOn(e)
    requires AllWrote(d, e, ArithmeticAt(k))
    ensures forall l :: 0 <= l < 32 ==> LaneStage(e.lanes[l], k + 1, l, x, y, a, mem)
  {
    hide LaneStage, Wrote;
    forall l | 0 <= l < 32
      ensures LaneStage(e.lanes[l], k + 1, l, x, y, a, mem)
    {
      ComputeLaneStage(d.lanes[l], e.lanes[l], k, l, x, y, a, mem);
    }
  }

  lemma ComputeStage(F: Fpu, code: seq<Code>, d: Device, k: nat, x: nat, y: nat, a: Word, mem: seq<Byte>)
    requires InCode(code) && Stage(d, k, x, y, a, mem) && k in {0, 1, 2, 4, 5, 7}
    ensures var r := Step(F, code, d); r.status == Ok && Stage(r.dev, k + 1, x, y, a, mem)
  {
    StepRuns(F, code, d, k);
    Arithmetic(k);
    hide SAXPY, Execute, Step, InCode, LaneStage, AllWrote;
    var i, c := ArithmeticAt(k), d.(insns := d.insns + 1);
    ComputesAll(F, c, i);
    LanesStage(c.(insns := k), Execute(F, c, i).dev, k, x, y, a, mem);
  }

  lemma AccessIs(F: Fpu, d: Device, i: Insn)
    requires d.Valid() && i.op in {LOAD, STORE} && !AccessFrom(d, i, 0).1
    ensures Execute(F, d, i) == Bvrt.Advance(AccessFrom(d, i, 0).0)
  {
    NotComputing(i.op);
    hide Computes, AccessFrom, ComputeLanes, PushFrom, PopFrom, AnyOn;
  }

  /** The place that the load at k, or the store, takes its words from. */
  lemma PlacedAt(d: Device, k: nat, x: nat, y: nat, a: Word, mem: seq<Byte>)
    requires Stage(d, k, x, y, a, mem) && k in {3, 6, 8}
    ensures if k == 3 then Placed(d, 7, x) else Placed(d, 8, y)
  {
    hide Read32, Sum, Product;
  }

  lemma LoadLaneStage(was: Lane, w: Lane, k: nat, l: nat, x: nat, y: nat, a: Word, mem: seq<Byte>)
    requires was.Valid() && k in {3, 6} && l < 32 && LaneStage(was, k, l, x, y, a, mem)
    requires w == if k == 3 then was.(s := was.s[3 := Read32(mem, x + 4 * l)])
                  else was.(s := was.s[5 := Read32(mem, y + 4 * l)])
    ensures w.Valid() && LaneStage(w, k + 1, l, x, y, a, mem)
  {
    hide Read32, Sum, Product;
  }

  ghost predicate AllLoaded(d: Device, e: Device, r: nat, base: nat)
    requires AllOn(d) && 0 < r < 256
  {
    && e == d.(lanes := e.lanes) && |e.lanes| == 32
    && forall l :: 0 <= l < 32 ==> e.lanes[l] == d.lanes[l].(s := d.lanes[l].s[r := Read32(d.mem, base + 4 * l)])
  }

  lemma LoadsAll(F: Fpu, d: Device, r: nat, b: nat, base: nat)
    requires AllOn(d) && 0 < r < 256 && b < 256 && r != b && Placed(d, b, base)
    ensures exists e :: AllLoaded(d, e, r, base) && Execute(F, d, LoadAt(r, b)) == Bvrt.Advance(e)
  {
    hide Execute, AccessFrom, Read32;
    LoadsFrom(d, r, b, base, 0);
    AccessIs(F, d, LoadAt(r, b));
    assert AllLoaded(d, AccessFrom(d, LoadAt(r, b), 0).0, r, base);
  }

  lemma LoadedLanes(d: Device, c: Device, e: Device, k: nat, x: nat, y: nat, a: Word, mem: seq<Byte>)
    requires Stage(d, k, x, y, a, mem) && k in {3, 6} && c == d.(insns := k + 1)
    requires AllLoaded(c, e, if k == 3 then 3 else 5, if k == 3 then x else y)
    ensures Stage(Bvrt.Advance(e).dev, k + 1, x, y, a, mem)
  {
    hide LaneStage, Read32;
    forall l | 0 <= l < 32
      ensures e.lanes[l].Valid() && LaneStage(e.lanes[l], k + 1, l, x, y, a, mem)
    {
      LoadLaneStage(d.lanes[l], e.lanes[l], k, l, x, y, a, mem);
    }
  }

  lemma LoadStage(F: Fpu, code: seq<Code>, d: Device, k: nat, x: nat, y: nat, a: Word, mem: seq<Byte>)
    requires InCode(code) && Stage(d, k, x, y, a, mem) && k in {3, 6}
    ensures var r := Step(F, code, d); r.status == Ok && Stage(r.dev, k + 1, x, y, a, mem)
  {
    StepRuns(F, code, d, k);
    assert SAXPY[k] == if k == 3 then LoadAt(3, 7) else LoadAt(5, 8);
    hide SAXPY, Execute, Step, InCode, LoadAt;
    LoadExecutes(F, d, k, x, y, a, mem);
  }

  lemma LoadExecutes(F: Fpu, d: Device, k: nat, x: nat, y: nat, a: Word, mem: seq<Byte>)
    requires Stage(d, k, x, y, a, mem) && k in {3, 6}
    ensures var r := Execute(F, d.(insns := d.insns + 1), if k == 3 then LoadAt(3, 7) else LoadAt(5, 8));
            r.status == Ok && Stage(r.dev, k + 1, x, y, a, mem)
  {
    PlacedAt(d, k, x, y, a, mem);
    hide Execute, LaneStage, LoadAt, AllLoaded;
    var c := d.(insns := k + 1);
    var r, b, base := if k == 3 then 3 else 5, if k == 3 then 7 else 8, if k == 3 then x else y;
    LoadsAll(F, c, r, b, base);
    var e :| AllLoaded(c, e, r, base) && Execute(F, c, LoadAt(r, b)) == Bvrt.Advance(e);
    LoadedLanes(d, c, e, k, x, y, a, mem);
  }

  // ---------- The store, the end and the whole run ----------

  /** The result of lane l. */
  function Expected(mem: seq<Byte>, x: nat, y: nat, a: Word, l: nat): Word
    requires x + 128 <= |mem| && y + 128 <= |mem| && l < 32
  {
    (a * FourBytes(mem, x + 4 * l) + FourBytes(mem, y + 4 * l)) % 0x1_0000_0000
  }

  /** Memory afterwards: a * x[l] + y[l] in place of each y[l], modulo 2^32, and all else as it was. */
  ghost predicate Done(m: seq<Byte>, mem: seq<Byte>, x: nat, y: nat, a: Word)
    requires x + 128 <= |mem| && y + 128 <= |mem|
  {
    && |m| == |mem|
    && (forall l :: 0 <= l < 32 ==> FourBytes(m, y + 4 * l) == Expected(mem, x, y, a, l))
    && forall k :: 0 <= k < |m| && !(y <= k < y + 128) ==> m[k] == mem[k]
  }

  lemma SumOfProduct(u: int, v: int)
    ensures (u % 0x1_0000_0000 + v) % 0x1_0000_0000 == (u + v) % 0x1_0000_0000
  {
  }

  lemma StoredWord(w: Lane, l: nat, x: nat, y: nat, a: Word, mem: seq<Byte>)
    requires w.Valid() && l < 32 && LaneStage(w, 8, l, x, y, a, mem) && x + 128 <= |mem| && y + 128 <= |mem|
    ensures w.s[6] == Expected(mem, x, y, a, l)
  {
    var u, v := Read32(mem, x + 4 * l), Read32(mem, y + 4 * l);
    LittleEndian(mem, x + 4 * l, 0);
    LittleEndian(mem, y + 4 * l, 0);
    hide Read32, FourBytes;
    assert u * a == a * u;
    SumOfProduct(a * u, v);
  }

  lemma StoreDone(d: Device, x: nat, y: nat, a: Word, mem: seq<Byte>)
    requires Stage(d, 8, x, y, a, mem) && Placed(d, 8, y)
    ensures var (e, oob) := AccessFrom(d, StoreAt(8, 6), 0); !oob && e == d.(mem := e.mem) && Done(e.mem, mem, x, y, a)
  {
    hide Read32, FourBytes, LaneStage, AccessFrom, Expected;
    StoresFrom(d, 8, 6, y, 0);
    var m := AccessFrom(d, StoreAt(8, 6), 0).0.mem;
    forall l | 0 <= l < 32
      ensures FourBytes(m, y + 4 * l) == Expected(mem, x, y, a, l)
    {
      StoredWord(d.lanes[l], l, x, y, a, mem);
      LittleEndian(m, y + 4 * l, 0);
    }
  }

  ghost predicate Stored(d: Device, x: nat, y: nat, a: Word, mem: seq<Byte>) {
    && x + 128 <= |mem| && y + 128 <= |mem|
    && AllOn(d) && d.pc == 9 && d.insns == 9 && Done(d.mem, mem, x, y, a)
  }

  lemma StoreEffect(d: Device, x: nat, y: nat, a: Word, mem: seq<Byte>) returns (m: seq<Byte>)
    requires Stage(d, 8, x, y, a, mem)
    ensures Done(m, mem, x, y, a) && AccessFrom(d.(insns := 9), StoreAt(8, 6), 0) == (d.(insns := 9, mem := m), false)
  {
    PlacedAt(d, 8, x, y, a, mem);
    hide AccessFrom, LaneStage, StoreAt, Done, AllOn;
    StoreKeepsCount(d, d.(insns := 9));
    StoreDone(d, x, y, a, mem);
    m := AccessFrom(d, StoreAt(8, 6), 0).0.mem;
  }

  lemma StoreExecutes(F: Fpu, d: Device, x: nat, y: nat, a: Word, mem: seq<Byte>)
    requires Stage(d, 8, x, y, a, mem)
    ensures var r := Execute(F, d.(insns := d.insns + 1), StoreAt(8, 6));
            r.status == Ok && Stored(r.dev, x, y, a, mem)
  {
    hide Execute, LaneStage, Done, AccessFrom;
    var m := StoreEffect(d, x, y, a, mem);
    AccessIs(F, d.(insns := 9), StoreAt(8, 6));
  }

  lemma StoreKeepsCount(d: Device, c: Device)
    requires d.Valid() && c == d.(insns := 9)
    ensures var (e, oob) := AccessFrom(d, StoreAt(8, 6), 0); AccessFrom(c, StoreAt(8, 6), 0) == (e.(insns := 9), oob)
  {
    CountUnread(d, StoreAt(8, 6), 0, 9);
  }

  lemma {:induction false} CountUnread(d: Device, i: Insn, from: nat, n: nat)
    requires d.Valid() && from <= |d.lanes|
    ensures var (e, oob) := AccessFrom(d, i, from); AccessFrom(d.(insns := n), i, from) == (e.(insns := n), oob)
    decreases |d.lanes| - from
  {
    hide On, AccessLane, Address, OutOfBounds;
    if from < |d.lanes| {
      var c := d.(insns := n);
      assert On(c, i, from) == On(d, i, from) by { SameOn(d, c, i, from); }
      if !On(d, i, from) {
        CountUnread(d, i, from + 1, n);
      } else if !OutOfBounds(d.mem, Address(i, d.lanes[from])) {
        var (w, mem) := AccessLane(i, d.lanes[from], d.mem);
        AccessKeepsLane(i, d.lanes[from], d.mem);
        CountUnread(d.(lanes := d.lanes[from := w], mem := mem), i, from + 1, n);
      }
    }
  }

  lemma SameOn(d: Device, c: Device, i: Insn, l: nat)
    requires d.Valid() && c.Valid() && l < |d.lanes| && c.lanes == d.lanes && c.active == d.active
    ensures On(c, i, l) == On(d, i, l)
  {
  }

  lemma StoreStage(F: Fpu, code: seq<Code>, d: Device, x: nat, y: nat, a: Word, mem: seq<Byte>)
    requires InCode(code) && Stage(d, 8, x, y, a, mem)
    ensures var r := Step(F, code, d); r.status == Ok && Stored(r.dev, x, y, a, mem)
  {
    StepRuns(F, code, d, 8);
    assert SAXPY[8] == StoreAt(8, 6);
    hide SAXPY, Execute, Step, InCode, StoreAt, Stored;
    StoreExecutes(F, d, x, y, a, mem);
  }

  lemma Ends(F: Fpu, code: seq<Code>, d: Device, x: nat, y: nat, a: Word, mem: seq<Byte>, max: nat)
    requires InCode(code) && Stored(d, x, y, a, mem) && max >= 10
    ensures var r := Run(F, code, d, max); r.status == Halted && r.dev.insns == 10 && Done(r.dev.mem, mem, x, y, a)
  {
    StepRuns(F, code, d, 9);
    var i, c := Insn(EXIT, 0, 0, 0, 0, 0, 0, 0), d.(insns := 10);
    assert SAXPY[9] == i;
    hide SAXPY, Execute, Step, InCode, Done, Run;
    EndsOrWaits(F, c, i);
    assert d.active[0];
    RunStep(F, code, d, max);
    var e := Step(F, code, d).dev;
    assert Run(F, code, e, max) == Stepped(e, Halted) by { RunEnded(F, code, e, max); }
  }

  lemma RunStep(F: Fpu, code: seq<Code>, d: Device, max: nat)
    requires d.Valid() && d.active[0] && d.insns < max && Step(F, code, d).status == Ok
    ensures Run(F, code, d, max) == Run(F, code, Step(F, code, d).dev, max)
  {
    hide Step;
  }

  lemma RunEnded(F: Fpu, code: seq<Code>, d: Device, max: nat)
    requires d.Valid() && forall l :: 0 <= l < |d.lanes| ==> !d.active[l]
    ensures Run(F, code, d, max) == Stepped(d, Halted)
  {
    hide Step;
  }

  lemma {:induction false} RunsFrom(F: Fpu, code: seq<Code>, d: Device, k: nat, x: nat, y: nat, a: Word, mem: seq<Byte>,
                                    max: nat)
    requires InCode(code) && k <= 8 && Stage(d, k, x, y, a, mem) && max >= 10
    ensures x + 128 <= |mem| && y + 128 <= |mem|
    ensures var r := Run(F, code, d, max); r.status == Halted && r.dev.insns == 10 && Done(r.dev.mem, mem, x, y, a)
    decreases 8 - k
  {
    if k in {3, 6} {
      LoadStage(F, code, d, k, x, y, a, mem);
    } else if k == 8 {
      StoreStage(F, code, d, x, y, a, mem);
    } else {
      ComputeStage(F, code, d, k, x, y, a, mem);
    }
    hide Step, InCode, LaneStage, Done, Run;
    RunStep(F, code, d, max);
    var e := Step(F, code, d).dev;
    if k == 8 {
      Ends(F, code, e, x, y, a, mem, max);
    } else {
      RunsFrom(F, code, e, k + 1, x, y, a, mem, max);
    }
  }

  lemma Launched(x: Word, y: Word, a: Word, mem: seq<Byte>)
    requires x + 128 <= |mem| && y + 128 <= |mem| < 0x4000_0000
    ensures Stage(Launch(32, 0, [x, y, a], mem), 0, x, y, a, mem)
  {
    var d := Launch(32, 0, [x, y, a], mem);
    LaunchIs(32, 0, [x, y, a], mem, 0, 0);
    forall l | 0 <= l < 32
      ensures d.active[l] && LaneStage(d.lanes[l], 0, l, x, y, a, mem)
    {
      LaunchIs(32, 0, [x, y, a], mem, l, 1);
      LaunchIs(32, 0, [x, y, a], mem, l, 16);
      LaunchIs(32, 0, [x, y, a], mem, l, 17);
      LaunchIs(32, 0, [x, y, a], mem, l, 18);
    }
  }

  /**
    A launch of the kernel on the warp halts after ten instructions, whatever its floating-point
    unit, and has replaced each of the 32 words y[l] by a * x[l] + y[l]. The two vectors may
    overlap in any way: all lanes read before the first one writes.
   */
  lemma SaxpyOnAllLanes(F: Fpu, code: seq<Code>, x: Word, y: Word, a: Word, mem: seq<Byte>, max: nat)
    requires InCode(code) && x + 128 <= |mem| && y + 128 <= |mem| < 0x4000_0000 && max >= 10
    ensures var r := Run(F, code, Launch(32, 0, [x, y, a], mem), max);
            && r.status == Halted && r.dev.insns == 10 && |r.dev.mem| == |mem|
            && (forall l :: 0 <= l < 32 ==>
                  FourBytes(r.dev.mem, y + 4 * l)
                  == (a * FourBytes(mem, x + 4 * l) + FourBytes(mem, y + 4 * l)) % 0x1_0000_0000)
            && forall k :: 0 <= k < |mem| && !(y <= k < y + 128) ==> r.dev.mem[k] == mem[k]
  {
    hide Run, InCode, Stage, FourBytes, Launch;
    Launched(x, y, a, mem);
    RunsFrom(F, code, Launch(32, 0, [x, y, a], mem), 0, x, y, a, mem, max);
    var m := Run(F, code, Launch(32, 0, [x, y, a], mem), max).dev.mem;
    forall l | 0 <= l < 32
      ensures FourBytes(m, y + 4 * l)
              == (a * FourBytes(mem, x + 4 * l) + FourBytes(mem, y + 4 * l)) % 0x1_0000_0000
    {
      assert FourBytes(m, y + 4 * l) == Expected(mem, x, y, a, l);
    }
  }
}
