/** The BVBC container: the in-memory image, its packed form, and the parser. */
module Bvbc {
  import opened Bits
  import opened BradVector

  const MAX_KERNELS := 256
  const MAX_INSN := 65536
  const MAX_NAME := 64
  const POOL_SIZE := 4096
  const HEADER := 32
  /** "BVBC0001" */
  const MAGIC := 0x3130303043425642
  /** From here on entry * 8 no longer fits the 32-bit field. */
  const ENTRY_LIMIT := 0x2000_0000

  datatype Kernel = Kernel(name: seq<Byte>, entry: Word, nargs: Word)

  datatype Image = Image(kernels: seq<Kernel>, insns: seq<Code>, pool: seq<Byte>, blob: seq<Byte>) {
    /** What building an image with add_kernel and emit guarantees. */
    ghost predicate Built() {
      && |kernels| <= MAX_KERNELS && |insns| <= MAX_INSN && |pool| <= POOL_SIZE && pool == Pool(kernels, |kernels|)
      && forall i :: 0 <= i < |kernels| ==> GoodName(kernels[i].name)
    }

    /** And the constant region fits its 32-bit length field. */
    ghost predicate WellFormed() { Built() && |pool| + |blob| < WORD }

    function Size(): nat { HEADER + 16 * |kernels| + |pool| + |blob| + 8 * |insns| }
  }

  /** A nonempty C string that fits the name field. */
  ghost predicate GoodName(name: seq<Byte>) {
    0 < |name| < MAX_NAME && forall i :: 0 <= i < |name| ==> name[i] != 0
  }

  /** The names of the first n kernels, each with its terminating NUL. */
  function Pool(ks: seq<Kernel>, n: nat): seq<Byte>
    requires n <= |ks|
  {
    if n == 0 then [] else Pool(ks, n - 1) + ks[n - 1].name + [0]
  }

  // ---------- Building ----------

  /** bvbc_add_kernel. A C string has no NUL inside. */
  function AddKernel(img: Image, name: seq<Byte>, entry: Word, nargs: Word): Option<Image> {
    if |img.kernels| >= MAX_KERNELS || |name| == 0 || |name| >= MAX_NAME || |img.pool| + |name| + 1 > POOL_SIZE
    then None
    else Some(img.(kernels := img.kernels + [Kernel(name, entry, nargs)], pool := img.pool + name + [0]))
  }

  function Emit(img: Image, w: Code): Option<Image> {
    if |img.insns| >= MAX_INSN then None else Some(img.(insns := img.insns + [w]))
  }

  const EMPTY := Image([], [], [], [])

  /** The first kernel of that name. */
  function Lookup(ks: seq<Kernel>, name: seq<Byte>): Option<Kernel> {
    if ks == [] then None else if ks[0].name == name then Some(ks[0]) else Lookup(ks[1..], name)
  }

  lemma {:induction false} LookupFirst(ks: seq<Kernel>, name: seq<Byte>, i: nat)
    requires i <= |ks| && forall j :: 0 <= j < i ==> ks[j].name != name
    requires i < |ks| ==> ks[i].name == name
    ensures Lookup(ks, name) == if i < |ks| then Some(ks[i]) else None
  {
    if i > 0 {
      assert ks[0].name != name;
      LookupFirst(ks[1..], name, i - 1);
    }
  }

  lemma AddKernelKeeps(img: Image, name: seq<Byte>, entry: Word, nargs: Word)
    requires img.Built() && AddKernel(img, name, entry, nargs).Some? && 0 !in name
    ensures AddKernel(img, name, entry, nargs).value.Built()
  {
    var ks := img.kernels + [Kernel(name, entry, nargs)];
    PoolPrefix(img.kernels, ks, |img.kernels|);
  }

  lemma {:induction false} PoolPrefix(ks: seq<Kernel>, more: seq<Kernel>, n: nat)
    requires n <= |ks| && ks <= more
    ensures Pool(ks, n) == Pool(more, n)
  {
    if n > 0 { PoolPrefix(ks, more, n - 1); }
  }

  // ---------- Little-endian numbers ----------

  function LE(v: nat, n: nat): (r: seq<Byte>)
    ensures |r| == n
  {
    if n == 0 then [] else [v % 256] + LE(v / 256, n - 1)
  }

  function Number(bs: seq<Byte>): nat {
    if bs == [] then 0 else bs[0] as int + 256 * Number(bs[1..])
  }

  function Pow256(n: nat): nat { if n == 0 then 1 else 256 * Pow256(n - 1) }

  lemma {:induction false} NumberLE(v: nat, n: nat)
    requires v < Pow256(n)
    ensures Number(LE(v, n)) == v
  {
    if n > 0 {
      NumberLE(v / 256, n - 1);
      assert LE(v, n)[1..] == LE(v / 256, n - 1);
    }
  }

  lemma Pow256Values()
    ensures Pow256(4) == WORD && Pow256(8) == TWO_64
  {
    assert Pow256(2) == 0x1_0000 && Pow256(6) == 0x1_0000_0000_0000;
  }

  function Field32(buf: seq<Byte>, at: nat): nat
    requires at + 4 <= |buf|
  {
    Number(buf[at..at + 4])
  }

  function Field64(buf: seq<Byte>, at: nat): nat
    requires at + 8 <= |buf|
  {
    Number(buf[at..at + 8])
  }

  // ---------- Packing ----------

  function Header(img: Image): seq<Byte> {
    LE(MAGIC, 8) + LE(1, 4) + LE(0, 4) + LE(|img.kernels|, 4) + LE((|img.pool| + |img.blob|) % WORD, 4)
    + LE(|img.insns|, 4) + LE(0, 4)
  }

  function NameOff(ks: seq<Kernel>, i: nat): nat
    requires i <= |ks|
  {
    |Pool(ks, i)|
  }

  function Entry(ks: seq<Kernel>, i: nat): (r: seq<Byte>)
    requires i < |ks|
    ensures |r| == 16
  {
    LE(NameOff(ks, i) % WORD, 4) + LE(ks[i].entry * 8 % WORD, 4) + LE(ks[i].nargs, 4) + LE(0, 4)
  }

  function Table(ks: seq<Kernel>, n: nat): (r: seq<Byte>)
    requires n <= |ks|
    ensures |r| == 16 * n
  {
    if n == 0 then [] else Table(ks, n - 1) + Entry(ks, n - 1)
  }

  function Stream(insns: seq<Code>, n: nat): (r: seq<Byte>)
    requires n <= |insns|
    ensures |r| == 8 * n
  {
    if n == 0 then [] else Stream(insns, n - 1) + LE(insns[n - 1], 8)
  }

  function Packed(img: Image): (r: seq<Byte>)
    ensures |r| == img.Size()
  {
    Header(img) + Table(img.kernels, |img.kernels|) + img.pool + img.blob + Stream(img.insns, |img.insns|)
  }

  // ---------- Parsing ----------

  /** What the parser finds; offsets point into the buffer. */
  datatype Parsed = Parsed(kernels: seq<Kernel>, nconst: nat, blobAt: nat, streamAt: nat, ninsn: nat)

  /** The bytes from `at` on, up to a NUL or the limit. */
  function NameAt(buf: seq<Byte>, at: nat, limit: nat): (r: seq<Byte>)
    requires at + limit <= |buf|
    ensures |r| <= limit && forall i :: 0 <= i < |r| ==> r[i] != 0
    decreases limit
  {
    if limit == 0 || buf[at] == 0 then [] else [buf[at]] + NameAt(buf, at + 1, limit - 1)
  }

  function ParseKernel(buf: seq<Byte>, c0: nat, nconst: nat, i: nat): Option<Kernel>
    requires HEADER + 16 * i + 16 <= c0 && c0 + nconst <= |buf|
  {
    var e := HEADER + 16 * i;
    var noff, eoff, narg := Field32(buf, e), Field32(buf, e + 4), Field32(buf, e + 8);
    if noff >= nconst || eoff % 8 != 0 then None
    else
      var limit := if nconst - noff < MAX_NAME - 1 then nconst - noff else MAX_NAME - 1;
      FieldBound(buf, e + 4);
      FieldBound(buf, e + 8);
      Some(Kernel(NameAt(buf, c0 + noff, limit), eoff / 8, narg))
  }

  lemma FieldBound(buf: seq<Byte>, at: nat)
    requires at + 4 <= |buf|
    ensures Field32(buf, at) < WORD
  {
    Pow256Values();
    NumberBound(buf[at..at + 4]);
  }

  lemma {:induction false} NumberBound(bs: seq<Byte>)
    ensures Number(bs) < Pow256(|bs|)
  {
    if bs != [] { NumberBound(bs[1..]); }
  }

  function ParseKernels(buf: seq<Byte>, c0: nat, nconst: nat, n: nat): Option<seq<Kernel>>
    requires HEADER + 16 * n <= c0 && c0 + nconst <= |buf|
  {
    if n == 0 then Some([])
    else
      var before := ParseKernels(buf, c0, nconst, n - 1);
      if before.None? then None
      else
        var k := ParseKernel(buf, c0, nconst, n - 1);
        if k.None? then None else Some(before.value + [k.value])
  }

  function NamesLength(ks: seq<Kernel>, n: nat): nat
    requires n <= |ks|
  {
    if n == 0 then 0 else NamesLength(ks, n - 1) + |ks[n - 1].name| + 1
  }

  /**
    The bytes that a header asks for, in a size_t of the given number of values. On 64 bits the
    sum cannot wrap.
   */
  function Asked(nkern: nat, nconst: nat, ninsn: nat, size: nat): nat
    requires size > 0
  {
    (HEADER + 16 * nkern + nconst + 8 * ninsn) % size
  }

  lemma AskedExact(nkern: nat, nconst: nat, ninsn: nat)
    requires nkern <= MAX_KERNELS && nconst < WORD && ninsn <= MAX_INSN
    ensures Asked(nkern, nconst, ninsn, TWO_64) == HEADER + 16 * nkern + nconst + 8 * ninsn
  {
  }

  /**
    With a 32-bit size_t the length test is right exactly when the sum does not wrap, or wraps to
    more than the buffer holds.
   */
  lemma Asked32Iff(len: nat, nkern: nat, nconst: nat, ninsn: nat)
    requires len < WORD
    ensures var need := HEADER + 16 * nkern + nconst + 8 * ninsn;
            (len < Asked(nkern, nconst, ninsn, WORD) <==> len < need)
            <==> need < WORD || len < Asked(nkern, nconst, ninsn, WORD)
  {
  }

  /** A bare header whose constant region is said to have 2^32 - 32 bytes passes on 32 bits. */
  lemma Asked32Misses()
    ensures var need := HEADER + (WORD - HEADER);
            !(HEADER < Asked(0, WORD - HEADER, 0, WORD)) && HEADER < need
  {
  }

  /** What is handed out once the table and the constant region lie inside the buffer. */
  function ParseRegions(buf: seq<Byte>, nkern: nat, nconst: nat, ninsn: nat): Option<Parsed>
    requires HEADER + 16 * nkern + nconst <= |buf|
  {
    var c0 := HEADER + 16 * nkern;
    var ks := ParseKernels(buf, c0, nconst, nkern);
    if ks.None? then None
    else
      var names := NamesLength(ks.value, |ks.value|);
      if names > nconst then None
      else Some(Parsed(ks.value, nconst, c0 + names, c0 + nconst, ninsn))
  }

  function Parse(buf: seq<Byte>): Option<Parsed> {
    if |buf| < HEADER || Field64(buf, 0) != MAGIC then None
    else
      var nkern, nconst, ninsn := Field32(buf, 16), Field32(buf, 20), Field32(buf, 24);
      if nkern > MAX_KERNELS || ninsn > MAX_INSN then None
      else
        FieldBound(buf, 20);
        AskedExact(nkern, nconst, ninsn);
        if |buf| < Asked(nkern, nconst, ninsn, TWO_64) then None else ParseRegions(buf, nkern, nconst, ninsn)
  }
}
