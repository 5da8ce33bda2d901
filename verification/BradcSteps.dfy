/** Single steps of the two passes, and whole kernel blocks. */
module BradcSteps {
  import opened Bits
  import opened BradVector
  import opened Bvbc
  import opened Bradc

  // ---------- Single lines ----------

  lemma InsnStep(src: seq<Line>, syms: seq<Sym>, n: nat, st: Second, insn: Insn)
    requires n < |src| && Pass2(src, syms, n) == Some(st) && KindOf(src[n]) == Instruction && st.inKernel
    requires ParseInsn(syms, st.kpc, src[n]) == Some(insn) && |st.img.insns| < MAX_INSN
    ensures Pass2(src, syms, n + 1)
            == Some(Second(true, st.kpc + 1, st.img.(insns := st.img.insns + [WordOf(insn)])))
  {
    hide ParseInsn, KindOf, WordOf;
  }

  lemma KernelStep(src: seq<Line>, syms: seq<Sym>, n: nat, st: Second, name: string)
    requires n < |src| && Pass2(src, syms, n) == Some(st) && src[n] == [Dot, Id("kernel"), Id(name)]
    requires !st.inKernel && AddKernel(st.img, Bytes(name), |st.img.insns| % WORD, 0).Some?
    ensures Pass2(src, syms, n + 1)
            == Some(Second(true, 0, AddKernel(st.img, Bytes(name), |st.img.insns| % WORD, 0).value))
  {
    hide AddKernel;
  }

  lemma EndStep(src: seq<Line>, syms: seq<Sym>, n: nat, st: Second)
    requires n < |src| && Pass2(src, syms, n) == Some(st) && src[n] == [Dot, Id("end")] && st.inKernel
    ensures Pass2(src, syms, n + 1) == Some(st.(inKernel := false, kpc := 0))
  {
  }

  // ---------- Kernel bodies ----------

  /** A kernel's lines, the index of every line, and the program they spell. */
  datatype Listing = Listing(body: seq<Line>, at: seq<nat>, prog: seq<Insn>)

  /** Labels take no room, and an instruction line parses to the instruction at its index. */
  ghost predicate SpellsAt(syms: seq<Sym>, k: Listing, n: nat)
    requires n < |k.body| && |k.at| == |k.body| + 1
  {
    match KindOf(k.body[n])
    case Instruction =>
      && k.at[n + 1] == k.at[n] + 1 && k.at[n] < |k.prog|
      && ParseInsn(syms, k.at[n], k.body[n]) == Some(k.prog[k.at[n]])
    case Label => k.at[n + 1] == k.at[n]
    case _ => false
  }

  /** The first n lines spell their part of the program. */
  ghost predicate SpellsTo(syms: seq<Sym>, k: Listing, n: nat) {
    && n <= |k.body| && |k.at| == |k.body| + 1 && k.at[0] == 0
    && forall m :: 0 <= m < n ==> SpellsAt(syms, k, m)
  }

  ghost predicate Spells(syms: seq<Sym>, k: Listing) {
    SpellsTo(syms, k, |k.body|) && k.at[|k.body|] == |k.prog|
  }

  lemma WordsNext(prog: seq<Insn>, k: nat)
    requires k < |prog|
    ensures CodeWords(prog[..k + 1]) == CodeWords(prog[..k]) + [WordOf(prog[k])]
  {
    hide WordOf;
  }

  /** Pass 2 through the first n lines of a body that starts at line `from`. */
  lemma {:induction false} BodySteps(src: seq<Line>, syms: seq<Sym>, from: nat, st: Second, k: Listing, n: nat)
    requires from + |k.body| <= |src| && src[from..from + |k.body|] == k.body && n <= |k.body|
    requires Spells(syms, k) && Pass2(src, syms, from) == Some(st)
    requires st.inKernel && st.kpc == 0 && |st.img.insns| + |k.prog| <= MAX_INSN
    ensures k.at[n] <= |k.prog|
    ensures Pass2(src, syms, from + n)
            == Some(Second(true, k.at[n], st.img.(insns := st.img.insns + CodeWords(k.prog[..k.at[n]]))))
  {
    hide ParseInsn, KindOf, WordOf, Pass2;
    if n == 0 {
      assert st.img.insns + CodeWords(k.prog[..0]) == st.img.insns;
    } else {
      BodySteps(src, syms, from, st, k, n - 1);
      assert SpellsAt(syms, k, n - 1) && src[from + (n - 1)] == k.body[n - 1];
      var i := k.at[n - 1];
      var here := Second(true, i, st.img.(insns := st.img.insns + CodeWords(k.prog[..i])));
      if KindOf(k.body[n - 1]) == Instruction {
        InsnStep(src, syms, from + (n - 1), here, k.prog[i]);
        WordsNext(k.prog, i);
        assert st.img.insns + CodeWords(k.prog[..i]) + [WordOf(k.prog[i])]
            == st.img.insns + CodeWords(k.prog[..k.at[n]]);
      } else {
        LabelStep(src, syms, from + (n - 1), here);
      }
    }
  }

  lemma LabelStep(src: seq<Line>, syms: seq<Sym>, n: nat, st: Second)
    requires n < |src| && Pass2(src, syms, n) == Some(st) && KindOf(src[n]) == Label
    ensures Pass2(src, syms, n + 1) == Some(st)
  {
    hide KindOf;
  }

  /** A whole kernel: header, body and end. */
  function Block(name: string, body: seq<Line>): seq<Line> {
    [[Dot, Id("kernel"), Id(name)]] + body + [[Dot, Id("end")]]
  }

  lemma BlockSteps(src: seq<Line>, syms: seq<Sym>, from: nat, img: Image, name: string, k: Listing)
    requires from + |k.body| + 2 <= |src| && src[from..from + |k.body| + 2] == Block(name, k.body)
    requires Pass2(src, syms, from) == Some(Second(false, 0, img)) && Spells(syms, k)
    requires AddKernel(img, Bytes(name), |img.insns| % WORD, 0).Some? && |img.insns| + |k.prog| <= MAX_INSN
    ensures var after := AddKernel(img, Bytes(name), |img.insns| % WORD, 0).value;
            Pass2(src, syms, from + |k.body| + 2)
            == Some(Second(false, 0, after.(insns := img.insns + CodeWords(k.prog))))
  {
    hide ParseInsn, KindOf, WordOf, Pass2, SpellsTo;
    BlockLines(src, from, name, k.body);
    KernelStep(src, syms, from, Second(false, 0, img), name);
    var st := Second(true, 0, AddKernel(img, Bytes(name), |img.insns| % WORD, 0).value);
    SpellsShape(syms, k);
    BodySteps(src, syms, from + 1, st, k, |k.body|);
    assert k.prog[..|k.prog|] == k.prog;
    EndStep(src, syms, from + 1 + |k.body|,
            Second(true, |k.prog|, st.img.(insns := st.img.insns + CodeWords(k.prog))));
  }

  lemma SpellsShape(syms: seq<Sym>, k: Listing)
    requires Spells(syms, k)
    ensures |k.at| == |k.body| + 1 && k.at[|k.body|] == |k.prog|
  {
  }

  lemma BlockLines(src: seq<Line>, from: nat, name: string, body: seq<Line>)
    requires from + |body| + 2 <= |src| && src[from..from + |body| + 2] == Block(name, body)
    ensures src[from] == [Dot, Id("kernel"), Id(name)] && src[from + 1..from + 1 + |body|] == body
    ensures src[from + 1 + |body|] == [Dot, Id("end")]
  {
    var b := Block(name, body);
    assert src[from] == b[0] && src[from + 1 + |body|] == b[1 + |body|];
    forall k | 0 <= k < |body| ensures src[from + 1 + k] == body[k] {
      assert src[from + (1 + k)] == b[1 + k];
    }
    assert src[from + 1..from + 1 + |body|] == body;
  }

  // ---------- Pass 1 over a body ----------

  /** The symbols that the first n lines of a body add, when none is known before. */
  function LabelsIn(body: seq<Line>, at: seq<nat>, n: nat): seq<Sym>
    requires n <= |body| && |at| == |body| + 1
  {
    if n == 0 then []
    else if KindOf(body[n - 1]) == Label
    then LabelsIn(body, at, n - 1) + [Sym(body[n - 1][0].text, at[n - 1])]
    else LabelsIn(body, at, n - 1)
  }

  /** The indices and label names of a body: labels are new and different. */
  ghost predicate Indexed(body: seq<Line>, at: seq<nat>, known: seq<Sym>) {
    && |at| == |body| + 1 && at[0] == 0
    && (forall n :: 0 <= n < |body| ==>
          && (KindOf(body[n]) == Instruction ==> at[n + 1] == at[n] + 1)
          && (KindOf(body[n]) == Label ==>
                at[n + 1] == at[n] && Find(known + LabelsIn(body, at, n), body[n][0].text).None?)
          && KindOf(body[n]) in {Instruction, Label})
    && |known| + |body| <= MAX_SYMBOLS
  }

  lemma {:induction false} LabelCount(body: seq<Line>, at: seq<nat>, n: nat)
    requires n <= |body| && |at| == |body| + 1
    ensures |LabelsIn(body, at, n)| <= n
  {
    hide KindOf;
    if n > 0 { LabelCount(body, at, n - 1); }
  }

  lemma {:induction false} BodyLabels(src: seq<Line>, from: nat, body: seq<Line>, at: seq<nat>, known: seq<Sym>, n: nat)
    requires from + |body| <= |src| && src[from..from + |body|] == body && n <= |body|
    requires Pass1(src, from) == First(true, 0, known) && Indexed(body, at, known)
    ensures Pass1(src, from + n) == First(true, at[n], known + LabelsIn(body, at, n))
  {
    hide KindOf, Find;
    if n == 0 {
      assert known + [] == known;
    } else {
      BodyLabels(src, from, body, at, known, n - 1);
      assert src[from + (n - 1)] == body[n - 1];
      LabelCount(body, at, n - 1);
      if KindOf(body[n - 1]) == Label {
        assert known + LabelsIn(body, at, n - 1) + [Sym(body[n - 1][0].text, at[n - 1])]
            == known + LabelsIn(body, at, n);
      }
    }
  }

  lemma BlockLabels(src: seq<Line>, from: nat, name: string, body: seq<Line>, at: seq<nat>, known: seq<Sym>)
    requires from + |body| + 2 <= |src| && src[from..from + |body| + 2] == Block(name, body)
    requires Pass1(src, from) == First(false, 0, known) && Indexed(body, at, known)
    ensures Pass1(src, from + |body| + 2) == First(false, 0, known + LabelsIn(body, at, |body|))
  {
    hide Find, LabelsIn, Indexed;
    BlockLines(src, from, name, body);
    assert KindOf(src[from]) == Directive;
    assert Pass1(src, from + 1) == First(true, 0, known);
    BodyLabels(src, from + 1, body, at, known, |body|);
    assert KindOf(src[from + 1 + |body|]) == Directive;
  }
}
