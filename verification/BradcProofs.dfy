/** The two passes agree, and label branches land where they should. */
module BradcProofs {
  import opened Bits
  import opened BradVector
  import opened Bvbc
  import opened Bradc
  import opened Bvrt
  import BvbcRoundTrip

  /** What assembling the lines before n has produced. */
  function Before(src: seq<Line>, n: nat): Option<Second>
    requires n <= |src|
  {
    Pass2(src, Symbols(src), n)
  }

  /** The number of instructions emitted before line n: where the next one goes. */
  function AddressOf(src: seq<Line>, n: nat): nat
    requires n <= |src|
  {
    if Before(src, n).None? then 0 else |Before(src, n).value.img.insns|
  }

  /** The entry of the kernel that is open at line n. */
  function EntryAt(src: seq<Line>, n: nat): nat
    requires n <= |src|
  {
    if Before(src, n).None? || Before(src, n).value.img.kernels == [] then 0
    else
      var ks := Before(src, n).value.img.kernels;
      ks[|ks| - 1].entry
  }

  // ---------- Success of the whole is success of every part ----------

  lemma {:induction false} EarlierSucceed(src: seq<Line>, syms: seq<Sym>, m: nat, n: nat)
    requires m <= n <= |src| && Pass2(src, syms, n).Some?
    ensures Pass2(src, syms, m).Some?
    decreases n
  {
    hide Pass2Line;
    if m < n { EarlierSucceed(src, syms, m, n - 1); }
  }

  /** Emitted code only grows. */
  lemma {:induction false} CodeGrows(src: seq<Line>, syms: seq<Sym>, m: nat, n: nat)
    requires m <= n <= |src| && Pass2(src, syms, n).Some?
    ensures Pass2(src, syms, m).Some?
    ensures Pass2(src, syms, m).value.img.insns <= Pass2(src, syms, n).value.img.insns
    decreases n
  {
    if m < n {
      hide Pass2Line;
      CodeGrows(src, syms, m, n - 1);
      LineGrows(syms, Pass2(src, syms, n - 1).value, src[n - 1]);
    }
  }

  lemma LineGrows(syms: seq<Sym>, st: Second, line: Line)
    requires Pass2Line(syms, st, line).Some?
    ensures st.img.insns <= Pass2Line(syms, st, line).value.img.insns
  {
    hide ParseInsn, KindOf, WordOf;
  }

  // ---------- The passes agree ----------

  /** Both passes are inside a kernel together, at the same index, which counts the emitted words. */
  ghost predicate InStep(first: First, second: Second) {
    && first.inKernel == second.inKernel && first.kpc == second.kpc
    && |second.img.insns| <= MAX_INSN
    && (!second.inKernel ==> second.kpc == 0)
    && (second.inKernel ==>
          var ks := second.img.kernels;
          ks != [] && |second.img.insns| == ks[|ks| - 1].entry + second.kpc)
  }

  lemma LineInStep(first: First, syms: seq<Sym>, second: Second, line: Line)
    requires InStep(first, second) && Pass2Line(syms, second, line).Some?
    ensures InStep(Pass1Line(first, line), Pass2Line(syms, second, line).value)
  {
    hide ParseInsn, WordOf, Find;
  }

  /** The two passes give every line the same kernel-relative index. */
  lemma {:induction false} PassesAgree(src: seq<Line>, syms: seq<Sym>, n: nat)
    requires n <= |src| && Pass2(src, syms, n).Some?
    ensures InStep(Pass1(src, n), Pass2(src, syms, n).value)
  {
    hide Pass1Line, Pass2Line, InStep;
    if n > 0 {
      PassesAgree(src, syms, n - 1);
      LineInStep(Pass1(src, n - 1), syms, Pass2(src, syms, n - 1).value, src[n - 1]);
    } else {
      assert InStep(First(false, 0, []), Second(false, 0, EMPTY)) by { EmptyInStep(); }
    }
  }

  lemma EmptyInStep()
    ensures InStep(First(false, 0, []), Second(false, 0, EMPTY))
  {
  }

  // ---------- Symbols ----------

  /** Line j defines the label inside a kernel. */
  predicate Defines(src: seq<Line>, j: nat, name: string)
    requires j < |src|
  {
    KindOf(src[j]) == Label && Pass1(src, j).inKernel && src[j][0].text == name
  }

  lemma {:induction false} FindAppended(syms: seq<Sym>, sym: Sym, name: string)
    ensures Find(syms + [sym], name)
            == if Find(syms, name).Some? then Find(syms, name) else if sym.name == name then Some(sym.addr) else None
  {
    if syms == [] {
      assert [sym][1..] == [];
    } else {
      assert (syms + [sym])[1..] == syms[1..] + [sym];
      FindAppended(syms[1..], sym, name);
    }
  }

  /** A name's entry in the table comes from the first line that defines it. */
  lemma {:induction false} SymbolMeaning(src: seq<Line>, n: nat, name: string) returns (j: nat)
    requires n <= |src| && Find(Pass1(src, n).syms, name).Some?
    ensures j < n && Defines(src, j, name) && Find(Pass1(src, n).syms, name).value == Pass1(src, j).kpc
    ensures forall i :: 0 <= i < j ==> !Defines(src, i, name)
  {
    assert n > 0;
    hide KindOf, Find;
    var st, line := Pass1(src, n - 1), src[n - 1];
    if Find(st.syms, name).Some? {
      j := SymbolMeaning(src, n - 1, name);
      if KindOf(line) == Label { FindAppended(st.syms, Sym(line[0].text, st.kpc), name); }
    } else {
      FindAppended(st.syms, Sym(if KindOf(line) == Label then line[0].text else "", st.kpc), name);
      j := n - 1;
      forall i | 0 <= i < j ensures !Defines(src, i, name) {
        TableGrows(src, i, j);
        if Defines(src, i, name) { DefinedIsFound(src, i, n - 1, name); }
      }
    }
  }

  lemma {:induction false} TableGrows(src: seq<Line>, m: nat, n: nat)
    requires m <= n <= |src|
    ensures |Pass1(src, m).syms| <= |Pass1(src, n).syms|
    decreases n
  {
    hide KindOf, Find;
    if m < n { TableGrows(src, m, n - 1); }
  }

  /** Once defined, with room in the table, a name stays found. */
  lemma {:induction false} DefinedIsFound(src: seq<Line>, i: nat, n: nat, name: string)
    requires i < n <= |src| && Defines(src, i, name) && |Pass1(src, i).syms| < MAX_SYMBOLS
    ensures Find(Pass1(src, n).syms, name).Some?
  {
    hide KindOf, Find;
    var st, line := Pass1(src, n - 1), src[n - 1];
    FindAppended(st.syms, Sym(if KindOf(line) == Label then line[0].text else "", st.kpc), name);
    if i < n - 1 { DefinedIsFound(src, i, n - 1, name); }
  }

  // ---------- Branches ----------

  /** Line i is a branch or call to a label. */
  predicate BranchesTo(line: Line, name: string) {
    && KindOf(line) == Instruction && OpNamed(Mnemonic(line)) in {Some(BR), Some(BR_COND), Some(CALL)}
    && ParsePred(line).Some? && ParsePred(line).value.1 < |line| && line[ParsePred(line).value.1] == Id(name)
  }

  lemma BranchParsed(syms: seq<Sym>, kpc: nat, line: Line, name: string)
    requires BranchesTo(line, name) && ParseInsn(syms, kpc, line).Some?
    ensures var i := ParseInsn(syms, kpc, line).value;
            && Find(syms, name).Some? && i.imm == Find(syms, name).value - (kpc + 1) && -128 <= i.imm < 128
            && Some(i.op) == OpNamed(Mnemonic(line)) && i.pred == ParsePred(line).value.0 && i.pred <= 16
            && i == Insn(i.op, i.pred, 0, 0, 0, i.imm, 0, 0)
  {
    hide OpNamed, Decimal;
  }

  /** The word of an instruction line, once everything is assembled. */
  lemma EmittedWord(src: seq<Line>, i: nat, insn: Insn)
    requires i < |src| && Assemble(src).Some? && KindOf(src[i]) == Instruction
    requires Before(src, i).Some? && ParseInsn(Symbols(src), Before(src, i).value.kpc, src[i]) == Some(insn)
    ensures AddressOf(src, i) < |Assemble(src).value.insns|
    ensures Assemble(src).value.insns[AddressOf(src, i)] == WordOf(insn)
  {
    hide KindOf, ParseInsn, WordOf, Symbols;
    var syms := Symbols(src);
    CodeGrows(src, syms, i + 1, |src|);
    assert Pass2(src, syms, i + 1) == Pass2Insn(syms, Before(src, i).value, src[i]);
  }

  lemma LineParses(src: seq<Line>, i: nat)
    requires i < |src| && Assemble(src).Some? && KindOf(src[i]) == Instruction
    ensures Before(src, i).Some? && Before(src, i).value.inKernel
    ensures ParseInsn(Symbols(src), Before(src, i).value.kpc, src[i]).Some?
  {
    hide KindOf, ParseInsn, WordOf, Symbols;
    EarlierSucceed(src, Symbols(src), i + 1, |src|);
  }

  /**
    Every assembled branch to a label runs to the entry of its own kernel plus the index of the
    label's first definition, forward or backward, whatever its predicate.
   */
  lemma BranchGoesTo(src: seq<Line>, i: nat, name: string) returns (j: nat, insn: Insn)
    requires i < |src| && Assemble(src).Some? && BranchesTo(src[i], name)
    ensures Before(src, i).Some? && Before(src, i).value.img.kernels != [] && Before(src, i).value.inKernel
    ensures AddressOf(src, i) < |Assemble(src).value.insns|
    ensures Decode(Assemble(src).value.insns[AddressOf(src, i)]) == insn
    ensures Some(insn.op) == OpNamed(Mnemonic(src[i])) && insn.pred == ParsePred(src[i]).value.0
    ensures j < |src| && Defines(src, j, name) && Before(src, j).Some?
    ensures forall k :: 0 <= k < j ==> !Defines(src, k, name)
    ensures Before(src, j).value.inKernel && Before(src, j).value.img.kernels != []
    ensures AddressOf(src, j) == EntryAt(src, j) + Pass1(src, j).kpc
    ensures Target(AddressOf(src, i) % WORD, insn.imm) == EntryAt(src, i) + Pass1(src, j).kpc
  {
    hide ParseInsn, Decode, WordOf, Symbols, ParsePred, OpNamed;
    var syms := Symbols(src);
    LineParses(src, i);
    var st := Before(src, i).value;
    insn := ParseInsn(syms, st.kpc, src[i]).value;
    BranchParsed(syms, st.kpc, src[i], name);
    EmittedWord(src, i, insn);
    BranchOps(Mnemonic(src[i]), insn.op);
    DecodeWord(insn);
    PassesAgree(src, syms, i);
    assert syms == Pass1(src, |src|).syms by { SymbolsAre(src); }
    j := SymbolMeaning(src, |src|, name);
    EarlierSucceed(src, syms, j, |src|);
    PassesAgree(src, syms, j);
    TargetInRange(AddressOf(src, i), insn.imm, EntryAt(src, i) + Pass1(src, j).kpc);
  }

  lemma SymbolsAre(src: seq<Line>)
    ensures Symbols(src) == Pass1(src, |src|).syms
  {
  }

  lemma TargetInRange(pc: nat, imm: int, to: nat)
    requires pc <= MAX_INSN && -128 <= imm < 128 && to == pc + 1 + imm
    ensures Target(pc % WORD, imm) == to
  {
  }

  lemma BranchOps(name: string, op: Op)
    requires OpNamed(name) == Some(op) && op in {BR, BR_COND, CALL}
    ensures OpCode(op) < 256 && OpOf(OpCode(op)) == op
  {
    hide OpNamed;
  }

  /**
    A branch in a kernel that defines the label itself lands on that definition exactly when it
    has the same index in its kernel as the label's first definition in the source.
   */
  lemma OwnLabelLands(src: seq<Line>, i: nat, name: string, own: nat) returns (j: nat, insn: Insn)
    requires i < |src| && Assemble(src).Some? && BranchesTo(src[i], name)
    requires own < |src| && Defines(src, own, name) && EntryAt(src, own) == EntryAt(src, i)
    ensures j < |src| && Defines(src, j, name) && forall k :: 0 <= k < j ==> !Defines(src, k, name)
    ensures AddressOf(src, i) < |Assemble(src).value.insns|
    ensures Decode(Assemble(src).value.insns[AddressOf(src, i)]) == insn
    ensures Target(AddressOf(src, i) % WORD, insn.imm) == AddressOf(src, own)
            <==> Pass1(src, j).kpc == Pass1(src, own).kpc
  {
    hide BranchesTo, Decode, Target, Pass1, Symbols, Pass2;
    j, insn := BranchGoesTo(src, i, name);
    EarlierSucceed(src, Symbols(src), own, |src|);
    PassesAgree(src, Symbols(src), own);
  }

  /**
    The branch lands on the first definition in the source (the address of the next instruction
    there) exactly when that definition's kernel starts where the branch's kernel does.
   */
  lemma BranchLands(src: seq<Line>, i: nat, name: string) returns (j: nat, insn: Insn)
    requires i < |src| && Assemble(src).Some? && BranchesTo(src[i], name)
    ensures j < |src| && Defines(src, j, name) && forall k :: 0 <= k < j ==> !Defines(src, k, name)
    ensures AddressOf(src, i) < |Assemble(src).value.insns|
    ensures Decode(Assemble(src).value.insns[AddressOf(src, i)]) == insn
    ensures Target(AddressOf(src, i) % WORD, insn.imm) == AddressOf(src, j) <==> EntryAt(src, i) == EntryAt(src, j)
  {
    hide Assemble, Before, BranchesTo, Defines, Decode, Target, Pass1;
    j, insn := BranchGoesTo(src, i, name);
  }

  /** Every lane that is to call has room on its return stack. */
  ghost predicate RoomToCall(d: Device, insn: Insn)
    requires d.Valid()
  {
    forall l :: 0 <= l < |d.lanes| && On(d, insn, l) ==> d.lanes[l].retsp < MAX_RET
  }

  /** A label defined once, in the branch's own kernel, is where a taken branch or a call goes. */
  lemma UniqueLabelLands(F: Fpu, src: seq<Line>, i: nat, name: string, j: nat, d: Device)
    requires i < |src| && Assemble(src).Some? && BranchesTo(src[i], name)
    requires j < |src| && forall k :: 0 <= k < |src| ==> (Defines(src, k, name) <==> k == j)
    requires EntryAt(src, i) == EntryAt(src, j)
    requires d.Valid() && d.AnyActive() && d.pc == AddressOf(src, i)
    ensures AddressOf(src, i) < |Assemble(src).value.insns|
    ensures var insn := Decode(Assemble(src).value.insns[d.pc]);
            && Some(insn.op) == OpNamed(Mnemonic(src[i])) && insn.pred == ParsePred(src[i]).value.0
            && ((if insn.op == CALL then RoomToCall(d, insn) else AnyOn(d, insn)) ==>
                  Step(F, Assemble(src).value.insns, d).dev.pc == AddressOf(src, j))
  {
    hide Assemble, Before, Defines, Decode, Target, Pass1, AddressOf, EntryAt, AnyOn, Step, RoomToCall;
    hide Device.Valid, Device.AnyActive, BranchesTo, ParsePred, Mnemonic, OpNamed;
    var first, insn := BranchGoesTo(src, i, name);
    assert Defines(src, first, name);
    var code := Assemble(src).value.insns;
    BranchOpNamed(src[i], name, insn.op);
    CodeBound(src);
    if if insn.op == CALL then RoomToCall(d, insn) else AnyOn(d, insn) {
      TakenBranch(F, code, d, insn);
    }
  }

  lemma BranchOpNamed(line: Line, name: string, op: Op)
    requires BranchesTo(line, name) && OpNamed(Mnemonic(line)) == Some(op)
    ensures op in {BR, BR_COND, CALL}
  {
    hide OpNamed, ParsePred;
  }

  lemma CodeBound(src: seq<Line>)
    requires Assemble(src).Some?
    ensures |Assemble(src).value.insns| <= MAX_INSN
  {
    hide Pass1, Pass2;
    PassesAgree(src, Symbols(src), |src|);
  }

  lemma TakenBranch(F: Fpu, code: seq<Code>, d: Device, insn: Insn)
    requires d.Valid() && d.AnyActive() && d.pc < |code| <= MAX_INSN && Decode(code[d.pc]) == insn
    requires insn.op in {BR, BR_COND, CALL} && if insn.op == CALL then RoomToCall(d, insn) else AnyOn(d, insn)
    ensures Step(F, code, d).dev.pc == Target(d.pc, insn.imm)
  {
    hide Decode, Target, AnyOn, Execute, RoomToCall;
    var e := d.(insns := d.insns + 1);
    StillOn(d, insn);
    BranchExecutes(F, e, insn);
  }

  lemma StillOn(d: Device, insn: Insn)
    requires d.Valid()
    ensures AnyOn(d, insn) ==> AnyOn(d.(insns := d.insns + 1), insn)
    ensures RoomToCall(d, insn) ==> RoomToCall(d.(insns := d.insns + 1), insn)
  {
    hide PredOk;
    var e := d.(insns := d.insns + 1);
    forall l | 0 <= l < |d.lanes| ensures On(e, insn, l) == On(d, insn, l) { }
  }

  lemma BranchExecutes(F: Fpu, d: Device, insn: Insn)
    requires d.Valid() && insn.op in {BR, BR_COND, CALL}
    requires if insn.op == CALL then RoomToCall(d, insn) else AnyOn(d, insn)
    ensures Execute(F, d, insn).dev.pc == Target(d.pc, insn.imm)
  {
    hide Target, AnyOn, ComputeLanes, AccessFrom, PushFrom, PopFrom;
    if insn.op == CALL { AllPush(d, insn, 0); }
  }

  /** With room everywhere no push fails. */
  lemma {:induction false} AllPush(d: Device, insn: Insn, l: nat)
    requires d.Valid() && l <= |d.lanes|
    requires forall k :: l <= k < |d.lanes| && On(d, insn, k) ==> d.lanes[k].retsp < MAX_RET
    ensures !PushFrom(d, insn, l).1
    decreases |d.lanes| - l
  {
    hide PredOk;
    if l < |d.lanes| {
      if On(d, insn, l) {
        var w := d.lanes[l];
        var pushed := w.(ret := w.ret[w.retsp := (d.pc + 1) % WORD], retsp := w.retsp + 1);
        var e := d.(lanes := d.lanes[l := pushed]);
        forall k | l < k < |d.lanes| ensures On(e, insn, k) == On(d, insn, k) { }
        AllPush(e, insn, l + 1);
      } else {
        AllPush(d, insn, l + 1);
      }
    }
  }

  // ---------- Assembled images survive the container ----------

  /** Identifiers are made of nonzero ASCII characters, as the lexer makes them. */
  ghost predicate PlainText(line: Line) {
    forall k, c :: 0 <= k < |line| && line[k].Id? && c in line[k].text ==> 0 < c as int < 128
  }

  /** Every entry is an index into the code, and the image is well formed. */
  ghost predicate Sound(img: Image) {
    img.Built() && img.blob == [] && forall k :: 0 <= k < |img.kernels| ==> img.kernels[k].entry <= |img.insns|
  }

  lemma NameBytes(text: string)
    requires forall c :: c in text ==> 0 < c as int < 128
    ensures 0 !in Bytes(text)
  {
    forall i | 0 <= i < |text| ensures Bytes(text)[i] != 0 { assert text[i] in text; }
  }

  lemma LineSound(syms: seq<Sym>, st: Second, line: Line)
    requires Sound(st.img) && Pass2Line(syms, st, line).Some? && PlainText(line)
    ensures Sound(Pass2Line(syms, st, line).value.img)
  {
    hide ParseInsn, WordOf, Bytes, Image.Built, AddKernel;
    match KindOf(line)
    case Blank =>
    case Label =>
    case Instruction =>
      InsnSound(syms, st, line);
    case Directive =>
      if line[1] != Id("end") {
        var text := line[NextSrc(line, 1)].text;
        NameBytes(text);
        SoundSize(st.img);
        RoomForName(st.img, Bytes(text), |st.img.insns| % WORD);
        AddKernelKeeps(st.img, Bytes(text), |st.img.insns| % WORD, 0);
        AddedSound(st.img, Bytes(text));
      }
  }

  lemma RoomForName(img: Image, name: seq<Byte>, entry: Word)
    requires AddKernel(img, name, entry, 0).Some?
    ensures |img.pool| + |name| + 1 <= POOL_SIZE
  {
  }

  lemma SoundSize(img: Image)
    requires Sound(img)
    ensures |img.pool| <= POOL_SIZE && |img.insns| <= MAX_INSN
  {
  }

  lemma InsnSound(syms: seq<Sym>, st: Second, line: Line)
    requires Sound(st.img) && Pass2Insn(syms, st, line).Some?
    ensures Sound(Pass2Insn(syms, st, line).value.img)
  {
    hide ParseInsn, WordOf, GoodName, Pool;
  }

  lemma AddedSound(img: Image, name: seq<Byte>)
    requires Sound(img) && AddKernel(img, name, |img.insns| % WORD, 0).Some?
    requires AddKernel(img, name, |img.insns| % WORD, 0).value.Built()
    ensures Sound(AddKernel(img, name, |img.insns| % WORD, 0).value)
  {
    hide GoodName, Pool;
  }

  lemma {:induction false} AssembledSound(src: seq<Line>, syms: seq<Sym>, n: nat)
    requires n <= |src| && Pass2(src, syms, n).Some? && forall k :: 0 <= k < |src| ==> PlainText(src[k])
    ensures Sound(Pass2(src, syms, n).value.img)
  {
    hide Pass2Line, PlainText;
    if n > 0 {
      AssembledSound(src, syms, n - 1);
      LineSound(syms, Pass2(src, syms, n - 1).value, src[n - 1]);
    }
  }

  /** Whatever assembles can be packed and found again: kernels, words and constant bytes. */
  lemma AssembledRoundTrips(src: seq<Line>)
    requires Assemble(src).Some? && forall k :: 0 <= k < |src| ==> PlainText(src[k])
    ensures BvbcRoundTrip.Recovered(Assemble(src).value)
  {
    hide Pass2, PlainText, BvbcRoundTrip.Recovered, Image.Built;
    AssembledSound(src, Symbols(src), |src|);
    var img := Assemble(src).value;
    SoundSize(img);
    BvbcRoundTrip.RecoveredIff(img);
  }
}
