/** The assembler as it runs: symbol table, kernel index and image change as the two passes go. */
module BradcAssembler {
  import opened Bits
  import opened BradVector
  import opened Bvbc
  import opened BvbcFile
  import opened Bradc

  class Assembler {
    const img: ImageFile
    var syms: seq<Sym>
    var inKernel: bool
    var kpc: nat

    constructor (img: ImageFile)
      ensures this.img == img
    {
      this.img := img;
      syms, inKernel, kpc := [], false, 0;
    }

    function FirstState(): First
      reads this
    {
      First(inKernel, kpc, syms)
    }

    /** The image is built next to whatever constants it carries. */
    function SecondState(): Second
      reads this, img
    {
      Second(inKernel, kpc, img.Value().(blob := []))
    }

    /** b_find. */
    method FindSymbol(name: string) returns (addr: Option<nat>)
      ensures addr == Find(syms, name)
    {
      for i := 0 to |syms|
        invariant Find(syms, name) == Find(syms[i..], name)
      {
        assert syms[i..][1..] == syms[i + 1..];
        if syms[i].name == name { return Some(syms[i].addr); }
      }
      addr := None;
    }

    /** Pass 1: labels. */
    method CollectLabels(src: seq<Line>)
      modifies this
      ensures FirstState() == Pass1(src, |src|)
    {
      syms, inKernel, kpc := [], false, 0;
      for n := 0 to |src|
        invariant FirstState() == Pass1(src, n)
      {
        var line := src[n];
        match KindOf(line)
        case Blank =>
        case Directive =>
          inKernel, kpc := line[1] != Id("end"), 0;
        case Label =>
          var known := FindSymbol(line[0].text);
          if inKernel && known.None? && |syms| < MAX_SYMBOLS {
            syms := syms + [Sym(line[0].text, kpc)];
          }
        case Instruction =>
          if inKernel { kpc := kpc + 1; }
      }
    }

    /** .kernel and .end in pass 2. */
    method EmitDirective(line: Line) returns (ok: bool)
      requires KindOf(line) == Directive
      modifies this`inKernel, this`kpc, img
      ensures ok == Pass2Directive(old(SecondState()), line).Some?
      ensures ok ==> SecondState() == Pass2Directive(old(SecondState()), line).value
      ensures img.blob == old(img.blob)
    {
      if line[1] == Id("end") {
        ok := inKernel;
        inKernel, kpc := false, 0;
      } else {
        var i := NextSrc(line, 1);
        if inKernel || i >= |line| || !line[i].Id? { return false; }
        var index := img.AddKernel(Bytes(line[i].text), |img.insns| % WORD, 0);
        ok := index >= 0;
        inKernel, kpc := true, 0;
      }
    }

    /** b_emit for one instruction line. */
    method EmitInsn(line: Line) returns (ok: bool)
      modifies this`kpc, img
      ensures ok == Pass2Insn(syms, old(SecondState()), line).Some?
      ensures ok ==> SecondState() == Pass2Insn(syms, old(SecondState()), line).value
      ensures img.blob == old(img.blob)
    {
      hide ParseInsn, WordOf;
      var insn := ParseInsn(syms, kpc, line);
      if insn.None? || !inKernel { return false; }
      var index := img.Emit(WordOf(insn.value));
      ok := index >= 0;
      kpc := kpc + 1;
    }

    /** bradc_assemble: on success the image holds exactly what the two passes define. */
    method Run(src: seq<Line>) returns (ok: bool)
      modifies this, img
      ensures ok == Assemble(src).Some?
      ensures ok ==> img.Value() == Assemble(src).value.(blob := old(img.blob))
    {
      hide ParseInsn, WordOf, KindOf, Pass2Directive, Pass2Insn;
      CollectLabels(src);
      inKernel, kpc := false, 0;
      img.kernels, img.insns, img.pool := [], [], [];
      for n := 0 to |src|
        invariant syms == Symbols(src) && Pass2(src, syms, n) == Some(SecondState()) && img.blob == old(img.blob)
      {
        var line := src[n];
        ghost var was := SecondState();
        match KindOf(line) {
          case Directive => ok := EmitDirective(line);
          case Instruction => ok := EmitInsn(line);
          case _ => ok := true;
        }
        if !ok {
          StaysFailed(src, syms, n + 1, |src|);
          return;
        }
        assert Pass2Line(syms, was, line) == Some(SecondState());
      }
      ok := !inKernel;
    }
  }

  /** A failed line fails the whole. */
  lemma {:induction false} StaysFailed(src: seq<Line>, syms: seq<Sym>, m: nat, n: nat)
    requires m <= n <= |src| && Pass2(src, syms, m).None?
    ensures Pass2(src, syms, n).None?
  {
    hide Pass2Line;
    if m < n { StaysFailed(src, syms, m, n - 1); }
  }
}
