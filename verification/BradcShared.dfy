/** Two kernels that share a label name: the first one captures the second one's branch. */
module BradcShared {
  import opened Bits
  import opened BradVector
  import opened Bvbc
  import opened Bradc
  import opened BradcSteps
  import opened BradcProofs
  import opened Bvrt

  const FIRST: seq<Line> := [[Id("x"), Colon], [Id("EXIT")]]
  const SECOND: seq<Line> := [[Id("EXIT")], [Id("x"), Colon], [Id("BR"), Id("x")]]
  const TWICE: seq<Line> := Block("a", FIRST) + Block("b", SECOND)

  const SYMS: seq<Sym> := [Sym("x", 0)]
  const EXIT_INSN := Make(EXIT, 0, 0, 0, 0, 0)
  const BR_INSN := Make(BR, 0, 0, 0, 0, -2)

  lemma Placed()
    ensures |TWICE| == 9 && TWICE[0..4] == Block("a", FIRST) && TWICE[4..9] == Block("b", SECOND)
    ensures TWICE[5] == [Id("EXIT")] && TWICE[6] == [Id("x"), Colon] && TWICE[7] == [Id("BR"), Id("x")]
  {
  }

  lemma SharedSymbols()
    ensures Symbols(TWICE) == SYMS && Defines(TWICE, 6, "x") && Pass1(TWICE, 6).kpc == 1
  {
    var x: Line := [Id("x"), Colon];
    assert KindOf(x) == Label && Find([], "x").None? && Find(SYMS, "x").Some?;
    assert KindOf([Id("EXIT")]) == Instruction && KindOf([Id("BR"), Id("x")]) == Instruction;
    hide KindOf, Find;
    Placed();
    assert Pass1(TWICE, 0) == First(false, 0, []);
    BlockLines(TWICE, 0, "a", FIRST);
    BlockLines(TWICE, 4, "b", SECOND);
    assert TWICE[1] == FIRST[0] && TWICE[2] == FIRST[1];
    DirectiveLine(TWICE, 0);
    assert Pass1(TWICE, 1) == First(true, 0, []);
    assert Pass1(TWICE, 2) == First(true, 0, SYMS);
    assert Pass1(TWICE, 3) == First(true, 1, SYMS);
    DirectiveLine(TWICE, 3);
    assert Pass1(TWICE, 4) == First(false, 0, SYMS);
    DirectiveLine(TWICE, 4);
    assert Pass1(TWICE, 5) == First(true, 0, SYMS);
    assert Pass1(TWICE, 6) == First(true, 1, SYMS);
    assert Pass1(TWICE, 7) == First(true, 1, SYMS);
    assert Pass1(TWICE, 8) == First(true, 2, SYMS);
    DirectiveLine(TWICE, 8);
  }

  lemma DirectiveLine(src: seq<Line>, n: nat)
    requires n < |src| && |src[n]| > 1 && src[n][0] == Dot && src[n][1] in {Id("kernel"), Id("end")}
    ensures KindOf(src[n]) == Directive
    ensures Pass1(src, n + 1) == Pass1(src, n).(inKernel := src[n][1] != Id("end"), kpc := 0)
  {
  }

  lemma BothParse()
    ensures forall kpc: nat :: ParseInsn(SYMS, kpc, [Id("EXIT")]) == Some(EXIT_INSN)
    ensures ParseInsn(SYMS, 1, [Id("BR"), Id("x")]) == Some(BR_INSN)
    ensures BranchesTo([Id("BR"), Id("x")], "x") && BR_INSN.Encodable() && BR_INSN.imm == -2
    ensures KindOf([Id("EXIT")]) == Instruction && KindOf([Id("BR"), Id("x")]) == Instruction
  {
    assert OpNamed("EXIT") == Some(EXIT) && OpNamed("BR") == Some(BR);
    hide OpNamed;
    assert Find(SYMS, "x") == Some(0);
    assert ParsePred([Id("BR"), Id("x")]) == Some((0, 1)) && ParsePred([Id("EXIT")]) == Some((0, 1));
  }

  /** In this source the branch goes to the second kernel's entry, one short of its own label. */
  lemma SharedLabelMisses()
    ensures Assemble(TWICE).Some? && |Assemble(TWICE).value.insns| == 3
    ensures Defines(TWICE, 6, "x") && BranchesTo(TWICE[7], "x")
    ensures Before(TWICE, 6).Some? && Before(TWICE, 7).Some? && AddressOf(TWICE, 6) == AddressOf(TWICE, 7) == 2
    ensures Target(2, Decode(Assemble(TWICE).value.insns[2]).imm) == 1
  {
    BothParse();
    SharedSymbols();
    Placed();
    hide Decode, ParseInsn, KindOf, WordOf, Insn.Encodable;
    DecodeWord(BR_INSN);
    SharedPass2();
  }

  lemma SharedPass2()
    ensures Assemble(TWICE).Some?
    ensures Assemble(TWICE).value.insns == [WordOf(EXIT_INSN), WordOf(EXIT_INSN), WordOf(BR_INSN)]
    ensures Before(TWICE, 6).Some? && Before(TWICE, 7).Some? && AddressOf(TWICE, 6) == AddressOf(TWICE, 7) == 2
  {
    BothParse();
    SharedSymbols();
    Placed();
    assert Pass2(TWICE, SYMS, 0) == Some(Second(false, 0, EMPTY));
    BlockLines(TWICE, 0, "a", FIRST);
    BlockLines(TWICE, 4, "b", SECOND);
    assert TWICE[1] == FIRST[0] && TWICE[2] == FIRST[1] && KindOf(FIRST[0]) == Label && KindOf(SECOND[1]) == Label;
    hide WordOf, KindOf, ParseInsn, Pass2, Symbols;
    hide TWICE, Block;
    var e, b := WordOf(EXIT_INSN), WordOf(BR_INSN);
    KernelStep(TWICE, SYMS, 0, Second(false, 0, EMPTY), "a");
    var i1 := AddKernel(EMPTY, Bytes("a"), 0, 0).value;
    LabelStep(TWICE, SYMS, 1, Second(true, 0, i1));
    InsnStep(TWICE, SYMS, 2, Second(true, 0, i1), EXIT_INSN);
    var i2 := i1.(insns := i1.insns + [e]);
    EndStep(TWICE, SYMS, 3, Second(true, 1, i2));
    KernelStep(TWICE, SYMS, 4, Second(false, 0, i2), "b");
    var i3 := AddKernel(i2, Bytes("b"), 1, 0).value;
    InsnStep(TWICE, SYMS, 5, Second(true, 0, i3), EXIT_INSN);
    var i4 := i3.(insns := i3.insns + [e]);
    LabelStep(TWICE, SYMS, 6, Second(true, 1, i4));
    InsnStep(TWICE, SYMS, 7, Second(true, 1, i4), BR_INSN);
    var i5 := i4.(insns := i4.insns + [b]);
    EndStep(TWICE, SYMS, 8, Second(true, 2, i5));
    assert i5.insns == [e, e, b];
  }
}
