/** From the text of the demonstration page's kernel to what its launch leaves in memory. */
module KernelDemo {
  import opened Bits
  import opened BitLaws
  import opened BradVector
  import opened Bvbc
  import opened Bradc
  import opened BradcSteps
  import opened Bvrt
  import opened KernelSource
  import Bvml
  import KernelInteger
  import Kernels

  const TEXT := Listing([
    Line3("IADD", 2, 1, 1), Line3("IADD", 2, 2, 2), Line3("IADD", 7, 16, 2), Imm3("LOAD", 3, 7, 0),
    Line3("IMUL", 4, 3, 18), Line3("IADD", 8, 17, 2), Imm3("LOAD", 5, 8, 0), Line3("IADD", 6, 4, 5),
    Imm3("STORE", 8, 6, 0), [Id("EXIT")]],
    [0, 1, 2, 3, 4, 5, 6, 7, 8, 9, 10], KernelInteger.SAXPY)

  lemma Forms(d: nat, a: nat, b: nat)
    ensures KernelInteger.Int3(IADD, d, a, b) == Kernels.Reg3(IADD, d, a, b)
    ensures KernelInteger.Int3(IMUL, d, a, b) == Kernels.Reg3(IMUL, d, a, b)
    ensures KernelInteger.LoadAt(d, a) == Kernels.Load(d, a) && KernelInteger.StoreAt(a, d) == Kernels.StoreTo(a, d)
  {
  }

  lemma Numbers()
    ensures OpNamed("IADD") == Some(IADD) && OpNamed("IMUL") == Some(IMUL)
  {
  }

  /** Every line parses to the instruction at its index. */
  lemma TextSpells(syms: seq<Sym>)
    ensures Spells(syms, TEXT)
  {
    assert SpellsTo(syms, TEXT, 0);
    hide SpellsTo;
    FirstHalf(syms);
    SecondHalf(syms);
  }

  lemma FirstHalf(syms: seq<Sym>)
    requires SpellsTo(syms, TEXT, 0)
    ensures SpellsTo(syms, TEXT, 5)
  {
    hide OpNamed, SpellsTo, Line3, Imm3, KernelInteger.Int3, KernelInteger.LoadAt, KernelInteger.StoreAt;
    hide Kernels.Reg3, Kernels.Load, Kernels.StoreTo, Dec;
    Numbers();
    Forms(2, 1, 1);
    Forms(2, 2, 2);
    Forms(7, 16, 2);
    Forms(3, 7, 0);
    Forms(4, 3, 18);
    NextReg3(syms, TEXT, 0, "IADD", IADD, 2, 1, 1);
    NextReg3(syms, TEXT, 1, "IADD", IADD, 2, 2, 2);
    NextReg3(syms, TEXT, 2, "IADD", IADD, 7, 16, 2);
    NextLoad(syms, TEXT, 3, 3, 7);
    NextReg3(syms, TEXT, 4, "IMUL", IMUL, 4, 3, 18);
  }

  lemma SecondHalf(syms: seq<Sym>)
    requires SpellsTo(syms, TEXT, 5)
    ensures SpellsTo(syms, TEXT, 10)
  {
    hide OpNamed, SpellsTo, Line3, Imm3, KernelInteger.Int3, KernelInteger.LoadAt, KernelInteger.StoreAt;
    hide Kernels.Reg3, Kernels.Load, Kernels.StoreTo, Dec;
    Numbers();
    Forms(8, 17, 2);
    Forms(5, 8, 0);
    Forms(6, 4, 5);
    Forms(6, 8, 0);
    NextReg3(syms, TEXT, 5, "IADD", IADD, 8, 17, 2);
    NextLoad(syms, TEXT, 6, 5, 8);
    NextReg3(syms, TEXT, 7, "IADD", IADD, 6, 4, 5);
    NextStore(syms, TEXT, 8, 8, 6);
    NextExit(syms, TEXT, 9);
  }

  function Demo(): Image {
    Image([Kernel(Bytes("saxpy"), 0, 0)], CodeWords(KernelInteger.SAXPY), Bytes("saxpy") + [0], [])
  }

  lemma FirstKernel(name: seq<Byte>)
    requires 0 < |name| < 64
    ensures AddKernel(EMPTY, name, 0, 0) == Some(Image([Kernel(name, 0, 0)], [], name + [0], []))
  {
    assert [] + name + [0] == name + [0];
    assert [] + [Kernel(name, 0, 0)] == [Kernel(name, 0, 0)];
  }

  lemma DemoAssembles()
    ensures Assemble(Block("saxpy", TEXT.body)) == Some(Demo())
  {
    var src := Block("saxpy", TEXT.body);
    var syms := Symbols(src);
    assert |src| == 12 && src[0..12] == src && |TEXT.body| == 10 && |TEXT.prog| == 10;
    assert |Bytes("saxpy")| == 5;
    FirstKernel(Bytes("saxpy"));
    hide Pass2Line, Symbols, Spells, WordOf, AddKernel, Bytes, TEXT, Block, CodeWords;
    TextSpells(syms);
    assert Pass2(src, syms, 0) == Some(Second(false, 0, EMPTY));
    BlockSteps(src, syms, 0, EMPTY, "saxpy", TEXT);
    assert EMPTY.insns + CodeWords(TEXT.prog) == CodeWords(TEXT.prog);
  }

  lemma DemoLoaded()
    ensures KernelInteger.InCode(Demo().insns)
  {
    assert Bvml.Plain(KernelInteger.SAXPY);
    Bvml.PlainEncodable(KernelInteger.SAXPY);
    hide Insn.Encodable, WordOf;
    forall k | 0 <= k < |KernelInteger.SAXPY|
      ensures Decode(Demo().insns[k]) == KernelInteger.SAXPY[k]
    {
      DecodeWord(KernelInteger.SAXPY[k]);
    }
  }

  /** The text assembles, and launching what it assembles to gives a * x[l] + y[l] in every lane's place. */
  lemma TextRuns(F: Fpu, x: Word, y: Word, a: Word, mem: seq<Byte>, max: nat)
    requires x + 128 <= |mem| && y + 128 <= |mem| < 0x4000_0000 && max >= 10
    ensures var img := Assemble(Block("saxpy", TEXT.body));
            && img.Some? && img.value.kernels == [Kernel(Bytes("saxpy"), 0, 0)]
            && var r := Run(F, img.value.insns, Launch(32, 0, [x, y, a], mem), max);
               && r.status == Halted && r.dev.insns == 10 && |r.dev.mem| == |mem|
               && (forall l :: 0 <= l < 32 ==>
                     FourBytes(r.dev.mem, y + 4 * l)
                     == (a * FourBytes(mem, x + 4 * l) + FourBytes(mem, y + 4 * l)) % 0x1_0000_0000)
               && forall k :: 0 <= k < |mem| && !(y <= k < y + 128) ==> r.dev.mem[k] == mem[k]
  {
    DemoAssembles();
    DemoLoaded();
    hide Assemble, Block, TEXT, CodeWords, Run, Launch, FourBytes, KernelInteger.InCode;
    KernelInteger.SaxpyOnAllLanes(F, Demo().insns, x, y, a, mem, max);
  }
}
