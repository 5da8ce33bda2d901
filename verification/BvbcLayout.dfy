/** The container byte by byte, and what exactly the parser accepts. */
module BvbcLayout {
  import opened Bits
  import opened BitLaws
  import opened BradVector
  import opened Bvbc
  import opened BvbcRoundTrip

  /** The number that eight bytes stand for, the lowest one first. */
  function EightBytes(buf: seq<Byte>, at: nat): nat
    requires at + 8 <= |buf|
  {
    FourBytes(buf, at) + 0x1_0000_0000 * FourBytes(buf, at + 4)
  }

  lemma NumberOfFour(bs: seq<Byte>)
    requires |bs| == 4
    ensures Number(bs) == FourBytes(bs, 0)
  {
    assert Number(bs[1..][1..][1..][1..]) == 0;
    assert Number(bs[1..][1..][1..]) == bs[3] as int;
    assert Number(bs[1..][1..]) == bs[2] as int + 256 * (bs[3] as int);
    assert Number(bs[1..]) == bs[1] as int + 256 * (bs[2] as int) + 65536 * (bs[3] as int);
  }

  lemma NumberOfEight(bs: seq<Byte>)
    requires |bs| == 8
    ensures Number(bs) == EightBytes(bs, 0)
  {
    NumberOfFour(bs[4..]);
    assert bs[1..][1..][1..][1..] == bs[4..];
    assert Number(bs[1..][1..][1..]) == bs[3] as int + 256 * Number(bs[4..]);
    assert Number(bs[1..][1..]) == bs[2] as int + 256 * (bs[3] as int) + 65536 * Number(bs[4..]);
    assert Number(bs[1..]) == bs[1] as int + 256 * (bs[2] as int) + 65536 * (bs[3] as int) + 0x100_0000 * Number(bs[4..]);
    assert FourBytes(bs[4..], 0) == FourBytes(bs, 4);
  }

  /** Fields are read with the lowest byte first. */
  lemma FieldIs(buf: seq<Byte>, at: nat)
    ensures at + 4 <= |buf| ==> Field32(buf, at) == FourBytes(buf, at)
    ensures at + 8 <= |buf| ==> Field64(buf, at) == EightBytes(buf, at)
  {
    hide Number;
    if at + 4 <= |buf| { NumberOfFour(buf[at..at + 4]); }
    if at + 8 <= |buf| { NumberOfEight(buf[at..at + 8]); }
  }

  // ---------- The packed form ----------

  /** "BVBC0001" */
  const SIGNATURE: seq<Byte> := [0x42, 0x56, 0x42, 0x43, 0x30, 0x30, 0x30, 0x31]

  lemma LowByte(x: Byte, y: Byte, m: nat, n: nat)
    requires x + 256 * m == y + 256 * n
    ensures x == y && m == n
  {
  }

  lemma FourOf(buf: seq<Byte>, at: nat, a: Byte, b: Byte, c: Byte, d: Byte)
    requires at + 4 <= |buf| && FourBytes(buf, at) == a + 256 * b + 65536 * c + 16777216 * d
    ensures buf[at] == a && buf[at + 1] == b && buf[at + 2] == c && buf[at + 3] == d
  {
    var m, n := buf[at + 3] as int, d as int;
    LowByte(buf[at], a, buf[at + 1] + 256 * (buf[at + 2] + 256 * m), b + 256 * (c + 256 * n));
    LowByte(buf[at + 1], b, buf[at + 2] + 256 * m, c + 256 * n);
    LowByte(buf[at + 2], c, m, n);
  }

  lemma HalvesOf(x: nat, y: nat, m: nat, n: nat)
    requires x < 0x1_0000_0000 && y < 0x1_0000_0000 && x + 0x1_0000_0000 * m == y + 0x1_0000_0000 * n
    ensures x == y && m == n
  {
  }

  lemma Signed(buf: seq<Byte>)
    requires |buf| >= 8
    ensures EightBytes(buf, 0) == MAGIC <==> buf[..8] == SIGNATURE
  {
    if buf[..8] == SIGNATURE {
      assert forall i :: 0 <= i < 8 ==> buf[i] == buf[..8][i];
    }
    if EightBytes(buf, 0) == MAGIC { SignatureOf(buf); }
  }

  lemma SignatureOf(buf: seq<Byte>)
    requires |buf| >= 8 && EightBytes(buf, 0) == MAGIC
    ensures buf[..8] == SIGNATURE
  {
    HalvesOf(FourBytes(buf, 0), 0x43425642, FourBytes(buf, 4), 0x31303030);
    hide FourBytes;
    FourOf(buf, 0, 0x42, 0x56, 0x42, 0x43);
    FourOf(buf, 4, 0x30, 0x30, 0x30, 0x31);
  }

  /** The header of a packed image. */
  lemma HeaderLayout(img: Image)
    requires img.WellFormed()
    ensures var p := Packed(img);
            && |p| == 32 + 16 * |img.kernels| + |img.pool| + |img.blob| + 8 * |img.insns|
            && p[..8] == SIGNATURE && FourBytes(p, 8) == 1 && FourBytes(p, 12) == 0
            && FourBytes(p, 16) == |img.kernels| && FourBytes(p, 20) == |img.pool| + |img.blob|
            && FourBytes(p, 24) == |img.insns| && FourBytes(p, 28) == 0
  {
    hide LE, Number, Field32, Field64, FourBytes, Table, Stream, Image.WellFormed, Packed, EightBytes, Header;
    var p := Packed(img);
    HeaderFields(img);
    OtherFields(img);
    FieldIs(p, 0);
    FieldIs(p, 8);
    FieldIs(p, 12);
    FieldIs(p, 16);
    FieldIs(p, 20);
    FieldIs(p, 24);
    FieldIs(p, 28);
    Signed(p);
  }

  lemma OtherFields(img: Image)
    ensures var p := Packed(img); Field32(p, 8) == 1 && Field32(p, 12) == 0 && Field32(p, 28) == 0
  {
    hide LE, Number, Table, Stream, Field32;
    var h := Header(img);
    var rest := Table(img.kernels, |img.kernels|) + img.pool + img.blob + Stream(img.insns, |img.insns|);
    assert Packed(img) == [] + h + rest;
    FieldInMiddle([], h, rest, 8, 1);
    FieldInMiddle([], h, rest, 12, 0);
    FieldInMiddle([], h, rest, 28, 0);
  }

  /** Where the names begin, and where the name of kernel i begins behind that. */
  function NamesAt(img: Image): nat { 32 + 16 * |img.kernels| }

  /** An entry of the kernel table at e: where the name is, the entry in bytes, the argument count and 0. */
  ghost predicate Describes(p: seq<Byte>, e: nat, names: nat, k: Kernel) {
    && e + 16 <= |p| && FourBytes(p, e + 4) == k.entry * 8 % 0x1_0000_0000 && FourBytes(p, e + 8) == k.nargs
    && FourBytes(p, e + 12) == 0
    && var at := names + FourBytes(p, e);
       at + |k.name| + 1 <= |p| && p[at..at + |k.name|] == k.name && p[at + |k.name|] == 0
  }

  lemma EntryLayout(img: Image, i: nat)
    requires img.WellFormed() && i < |img.kernels|
    ensures Describes(Packed(img), 32 + 16 * i, NamesAt(img), img.kernels[i])
  {
    hide LE, Number, Field32, FourBytes, Table, Stream, Image.WellFormed, Packed, NameOff;
    var p, e := Packed(img), 32 + 16 * i;
    EntryFields(img, i);
    EntryEnd(img, i);
    NameInPool(img, i);
    FieldIs(p, e);
    FieldIs(p, e + 4);
    FieldIs(p, e + 8);
    FieldIs(p, e + 12);
  }

  lemma EntryEnd(img: Image, i: nat)
    requires img.WellFormed() && i < |img.kernels|
    ensures Field32(Packed(img), 32 + 16 * i + 12) == 0
  {
    hide LE, Table, Stream, Entry, NameOff, Packed, Field32, Header, Image.WellFormed;
    var ks, h, t := img.kernels, Header(img), Table(img.kernels, |img.kernels|);
    HeaderFields(img);
    TableInMiddle(img);
    TableSlice(ks, |ks|, i);
    assert Entry(ks, i)[12..16] == LE(0, 4) by { EntryTail(ks, i); }
    FieldInTable(h, t, img.pool + img.blob + Stream(img.insns, |img.insns|), 16 * i, 12, 0);
  }

  lemma EntryTail(ks: seq<Kernel>, i: nat)
    requires i < |ks|
    ensures Entry(ks, i)[12..16] == LE(0, 4)
  {
    hide LE, NameOff;
  }

  /** The names follow each other, the first one at the beginning of the constant region. */
  lemma NamesInOrder(img: Image, i: nat)
    requires img.WellFormed() && i < |img.kernels|
    ensures var p := Packed(img);
            if i == 0 then FourBytes(p, 32) == 0
            else FourBytes(p, 32 + 16 * i) == FourBytes(p, 16 + 16 * i) + |img.kernels[i - 1].name| + 1
  {
    hide LE, Number, Field32, FourBytes, Table, Stream, Image.WellFormed, Packed;
    var p := Packed(img);
    EntryFields(img, i);
    FieldIs(p, 32 + 16 * i);
    if i > 0 {
      EntryFields(img, i - 1);
      FieldIs(p, 32 + 16 * (i - 1));
      PoolNext(img.kernels, i - 1);
    }
  }

  /** The constants follow the names, and the instruction words the constants. */
  lemma RegionsLayout(img: Image)
    requires img.WellFormed()
    ensures var p, at := Packed(img), NamesAt(img) + |img.pool|;
            && |p| == at + |img.blob| + 8 * |img.insns| && p[at..at + |img.blob|] == img.blob
            && forall i :: 0 <= i < |img.insns| ==> EightBytes(p, at + |img.blob| + 8 * i) == img.insns[i]
  {
    hide Field64, FourBytes, EightBytes, Image.WellFormed, Packed;
    BlobAndStream(img);
    var p, at := Packed(img), NamesAt(img) + |img.pool|;
    forall i | 0 <= i < |img.insns|
      ensures EightBytes(p, at + |img.blob| + 8 * i) == img.insns[i]
    {
      FieldIs(p, at + |img.blob| + 8 * i);
    }
  }

  // ---------- What is accepted ----------

  /** The bytes at `at` up to a NUL, or all of them when there is none before the limit. */
  ghost predicate NameIs(buf: seq<Byte>, at: nat, limit: nat, name: seq<Byte>) {
    && at + limit <= |buf| && |name| <= limit && buf[at..at + |name|] == name && 0 !in name
    && (|name| < limit ==> buf[at + |name|] == 0)
  }

  lemma {:induction false} NameAtIs(buf: seq<Byte>, at: nat, limit: nat)
    requires at + limit <= |buf|
    ensures NameIs(buf, at, limit, NameAt(buf, at, limit))
    decreases limit
  {
    if limit > 0 && buf[at] != 0 { NameAtIs(buf, at + 1, limit - 1); }
  }

  /** The table entry at e is accepted: its name lies in the constant region, its entry is a multiple of 8. */
  ghost predicate Accepted(buf: seq<Byte>, e: nat, nconst: nat) {
    e + 16 <= |buf| && FourBytes(buf, e) < nconst && FourBytes(buf, e + 4) % 8 == 0
  }

  /** What an accepted entry stands for; names are cut to 63 bytes. */
  ghost predicate StandsFor(buf: seq<Byte>, e: nat, c0: nat, nconst: nat, k: Kernel) {
    && Accepted(buf, e, nconst) && k.entry == FourBytes(buf, e + 4) / 8 && k.nargs == FourBytes(buf, e + 8)
    && var left := nconst - FourBytes(buf, e);
       NameIs(buf, c0 + FourBytes(buf, e), if left < 63 then left else 63, k.name)
  }

  lemma KernelParsed(buf: seq<Byte>, c0: nat, nconst: nat, i: nat)
    requires 32 + 16 * i + 16 <= c0 && c0 + nconst <= |buf|
    ensures var r := ParseKernel(buf, c0, nconst, i);
            if Accepted(buf, 32 + 16 * i, nconst) then r.Some? && StandsFor(buf, 32 + 16 * i, c0, nconst, r.value)
            else r.None?
  {
    hide Field32, FourBytes, NameIs, NameAt;
    var e := 32 + 16 * i;
    FieldIs(buf, e);
    FieldIs(buf, e + 4);
    FieldIs(buf, e + 8);
    if Accepted(buf, e, nconst) {
      var left := nconst - FourBytes(buf, e);
      NameAtIs(buf, c0 + FourBytes(buf, e), if left < 63 then left else 63);
    }
  }

  lemma {:induction false} AllParsed(buf: seq<Byte>, c0: nat, nconst: nat, n: nat)
    requires 32 + 16 * n <= c0 && c0 + nconst <= |buf|
    ensures var r := ParseKernels(buf, c0, nconst, n);
            && (r.Some? <==> forall i :: 0 <= i < n ==> Accepted(buf, 32 + 16 * i, nconst))
            && (r.Some? ==> |r.value| == n
                            && forall i :: 0 <= i < n ==> StandsFor(buf, 32 + 16 * i, c0, nconst, r.value[i]))
  {
    hide Accepted, StandsFor, ParseKernel;
    if n > 0 {
      AllParsed(buf, c0, nconst, n - 1);
      KernelParsed(buf, c0, nconst, n - 1);
    }
  }

  /** The limits that the header has to keep, the version among the fields that are not looked at. */
  ghost predicate HeaderAccepted(buf: seq<Byte>) {
    && |buf| >= 32 && buf[..8] == SIGNATURE && FourBytes(buf, 16) <= 256 && FourBytes(buf, 24) <= 65536
    && 32 + 16 * FourBytes(buf, 16) + FourBytes(buf, 20) + 8 * FourBytes(buf, 24) <= |buf|
  }

  ghost predicate EntriesAccepted(buf: seq<Byte>)
    requires |buf| >= 32
  {
    forall i :: 0 <= i < FourBytes(buf, 16) ==> Accepted(buf, 32 + 16 * i, FourBytes(buf, 20))
  }

  lemma HeaderChecked(buf: seq<Byte>)
    ensures !HeaderAccepted(buf) ==> Parse(buf) == None
    ensures HeaderAccepted(buf) ==>
              var nkern, nconst := FourBytes(buf, 16), FourBytes(buf, 20);
              Parse(buf) == ParseRegions(buf, nkern, nconst, FourBytes(buf, 24))
  {
    hide Field32, Field64, FourBytes, EightBytes, SIGNATURE, ParseRegions, Parse;
    if |buf| < 32 {
      ParseShort(buf);
    } else {
      FieldIs(buf, 0);
      FieldIs(buf, 16);
      FieldIs(buf, 20);
      FieldIs(buf, 24);
      Signed(buf);
      FieldBound(buf, 20);
      ParseFields(buf);
    }
  }

  lemma ParseShort(buf: seq<Byte>)
    ensures |buf| < 32 ==> Parse(buf) == None
  {
  }

  lemma ParseFields(buf: seq<Byte>)
    requires |buf| >= 32 && Field32(buf, 20) < 0x1_0000_0000
    ensures var nkern, nconst, ninsn := Field32(buf, 16), Field32(buf, 20), Field32(buf, 24);
            Parse(buf) == if Field64(buf, 0) == MAGIC && nkern <= 256 && ninsn <= 65536
                             && 32 + 16 * nkern + nconst + 8 * ninsn <= |buf|
                          then ParseRegions(buf, nkern, nconst, ninsn) else None
  {
    var nkern, nconst, ninsn := Field32(buf, 16), Field32(buf, 20), Field32(buf, 24);
    AskedFits(nkern, nconst, ninsn);
    hide MAGIC, Field32, Field64, ParseRegions, Asked;
  }

  lemma AskedFits(nkern: nat, nconst: nat, ninsn: nat)
    requires nconst < 0x1_0000_0000
    ensures nkern <= 256 && ninsn <= 65536 ==>
              Asked(nkern, nconst, ninsn, TWO_64) == 32 + 16 * nkern + nconst + 8 * ninsn
  {
  }

  /**
    The parser accepts exactly the buffers with this header, these entries, and names that fit
    the constant region, and hands out what the fields say.
   */
  lemma AcceptedIff(buf: seq<Byte>)
    ensures Parse(buf).Some? <==>
              && HeaderAccepted(buf) && EntriesAccepted(buf)
              && exists ks :: Kernels(buf, ks) && NamesLength(ks, |ks|) <= FourBytes(buf, 20)
    ensures Parse(buf).Some? ==>
              && HeaderAccepted(buf)
              && var r, c0 := Parse(buf).value, 32 + 16 * FourBytes(buf, 16);
                 && Kernels(buf, r.kernels) && r.blobAt == c0 + NamesLength(r.kernels, |r.kernels|)
                 && r.nconst == FourBytes(buf, 20) && r.streamAt == c0 + r.nconst && r.ninsn == FourBytes(buf, 24)
  {
    HeaderChecked(buf);
    hide Parse, FourBytes, NamesLength;
    if HeaderAccepted(buf) {
      var nkern, nconst := FourBytes(buf, 16), FourBytes(buf, 20);
      var c0 := 32 + 16 * nkern;
      AllParsed(buf, c0, nconst, nkern);
      if EntriesAccepted(buf) {
        var ks := ParseKernels(buf, c0, nconst, nkern).value;
        assert Kernels(buf, ks);
        if other :| Kernels(buf, other) && NamesLength(other, |other|) <= nconst {
          SameKernels(buf, ks, other);
        }
      }
    }
  }

  /** The kernels that the table stands for. */
  ghost predicate Kernels(buf: seq<Byte>, ks: seq<Kernel>) {
    && |buf| >= 32 && |ks| == FourBytes(buf, 16)
    && forall i :: 0 <= i < |ks| ==>
         StandsFor(buf, 32 + 16 * i, 32 + 16 * FourBytes(buf, 16), FourBytes(buf, 20), ks[i])
  }

  lemma SameName(buf: seq<Byte>, at: nat, limit: nat, a: seq<Byte>, b: seq<Byte>)
    requires NameIs(buf, at, limit, a) && NameIs(buf, at, limit, b)
    ensures a == b
  {
    if |a| < |b| {
      NotZero(buf, at, limit, b, |a|);
    } else if |b| < |a| {
      NotZero(buf, at, limit, a, |b|);
    }
  }

  lemma NotZero(buf: seq<Byte>, at: nat, limit: nat, a: seq<Byte>, j: nat)
    requires NameIs(buf, at, limit, a) && j < |a|
    ensures buf[at + j] != 0
  {
    assert a[j] == buf[at..at + |a|][j] && a[j] in a;
  }

  lemma SameKernels(buf: seq<Byte>, a: seq<Kernel>, b: seq<Kernel>)
    requires Kernels(buf, a) && Kernels(buf, b)
    ensures a == b
  {
    hide NameIs, FourBytes;
    var n, c := FourBytes(buf, 16), FourBytes(buf, 20);
    forall i | 0 <= i < |a| ensures a[i] == b[i] {
      assert StandsFor(buf, 32 + 16 * i, 32 + 16 * n, c, a[i]) && StandsFor(buf, 32 + 16 * i, 32 + 16 * n, c, b[i]);
      var at := FourBytes(buf, 32 + 16 * i);
      SameName(buf, 32 + 16 * n + at, if c - at < 63 then c - at else 63, a[i].name, b[i].name);
    }
  }

  // ---------- Building ----------

  /** A kernel is added while there are fewer than 256, with a name of 1 to 63 bytes, in 4096 bytes of names. */
  lemma AddKernelIff(img: Image, name: seq<Byte>, entry: Word, nargs: Word)
    ensures var r := AddKernel(img, name, entry, nargs);
            && (r.Some? <==> |img.kernels| < 256 && 0 < |name| < 64 && |img.pool| + |name| + 1 <= 4096)
            && (r.Some? ==> r.value.kernels == img.kernels + [Kernel(name, entry, nargs)]
                            && r.value.pool == img.pool + name + [0]
                            && r.value.insns == img.insns && r.value.blob == img.blob)
  {
  }

  /** An instruction is added while there are fewer than 65536. */
  lemma EmitIff(img: Image, w: Code)
    ensures var r := Emit(img, w);
            && (r.Some? <==> |img.insns| < 65536)
            && (r.Some? ==> r.value == Image(img.kernels, img.insns + [w], img.pool, img.blob))
  {
  }
}
