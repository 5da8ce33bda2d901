/** Operand forms that the assembler accepts and encodes as something else. */
module BradcOperands {
  import opened Bits
  import opened BradVector
  import opened Bradc
  import opened Bvrt
  import Kernels
  import opened KernelSource

  // ---------- Comparing with a number ----------

  function CmpNumber(p: nat, a: nat, v: int): Line { [Id("CMP"), Pred(p), Comma, Reg(a), Comma, Num(v)] }

  /** In every lane the instruction compares register a with the number v, for equality. */
  ghost predicate ComparesWith(i: Insn, a: nat, v: int) {
    forall w: Lane :: w.Valid() && w.s[0] == 0 ==>
      Compare(i.flags, GetS(w, i.src1), GetS(w, i.src2)) == Compare(0, GetS(w, a), v % WORD)
  }

  /**
    CMP is documented to take an immediate in the last place. Any number is accepted there and
    dropped: the instruction compares with register 0, so with that number exactly when it is 0.
   */
  lemma CmpNumberIff(syms: seq<Sym>, kpc: nat, p: nat, a: nat, v: int)
    requires p < 16 && a < 256
    ensures ParseInsn(syms, kpc, CmpNumber(p, a, v)) == Some(Kernels.Cmp(p, a, 0))
    ensures ComparesWith(Kernels.Cmp(p, a, 0), a, v) <==> v % WORD == 0
  {
    CmpNumberParses(syms, kpc, p, a, v);
    if v % WORD != 0 {
      var w := LaunchLane(0, []);
      assert w.Valid() && w.s[0] == 0 && GetS(w, a) == 0 && GetS(w, 0) == 0;
    }
  }

  lemma CmpNumberParses(syms: seq<Sym>, kpc: nat, p: nat, a: nat, v: int)
    requires p < 16 && a < 256
    ensures ParseInsn(syms, kpc, CmpNumber(p, a, v)) == Some(Kernels.Cmp(p, a, 0))
  {
    hide ParseReg, Decimal, Dec;
    PredParses(p);
    RegParses(a);
    assert OpNamed("CMP") == Some(CMP);
    hide OpNamed;
  }

  // ---------- A number as first source ----------

  function NumberFirst(mn: string, d: nat, v: int, b: nat): Line {
    [Id(mn), Reg(d), Comma, Num(v), Comma, Reg(b)]
  }

  /** A number in the place of the first source is taken for the register of that number. */
  lemma NumberIsRegister(syms: seq<Sym>, kpc: nat, mn: string, op: Op, d: nat, v: int, b: nat)
    requires d < 256 && b < 256 && OpNamed(mn) == Some(op) && op in {ADD, MUL, MAD, IADD, ISUB}
    ensures ParseInsn(syms, kpc, NumberFirst(mn, d, v, b)) == Some(Kernels.Reg3(op, d, v % 256, b))
    ensures ParseInsn(syms, kpc, NumberFirst(mn, d, v, b)) == ParseInsn(syms, kpc, Line3(mn, d, v % 256, b))
  {
    hide OpNamed, ParseReg, Dec, ParseInsn, ParseOperands;
    MovIsAddi();
    RegParses(d);
    RegParses(b);
    var line := NumberFirst(mn, d, v, b);
    assert ParsePred(line) == Some((0, 1)) && Mnemonic(line) == mn;
    OrdinaryParse(syms, kpc, line, mn, op);
    AluOperands(line, mn, op, d, Operand(NoReg, v), b);
    Reg3Parses(syms, kpc, mn, op, d, v % 256, b);
  }
}
