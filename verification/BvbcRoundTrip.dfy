/** Packing and parsing undo each other. */
module BvbcRoundTrip {
  import opened Bits
  import opened BradVector
  import opened Bvbc

  // ---------- Where the pieces lie ----------

  lemma Middle(a: seq<Byte>, b: seq<Byte>, c: seq<Byte>, at: nat, n: nat)
    requires at + n <= |b|
    ensures (a + b + c)[|a| + at..|a| + at + n] == b[at..at + n]
  {
  }

  lemma FieldInMiddle(a: seq<Byte>, b: seq<Byte>, c: seq<Byte>, at: nat, v: nat)
    requires at + 4 <= |b| && b[at..at + 4] == LE(v, 4) && v < WORD
    ensures Field32(a + b + c, |a| + at) == v
  {
    Middle(a, b, c, at, 4);
    Pow256Values();
    NumberLE(v, 4);
  }

  lemma HeaderFields(img: Image)
    requires img.WellFormed()
    ensures |Header(img)| == HEADER
    ensures var p := Packed(img);
            && Field64(p, 0) == MAGIC && Field32(p, 16) == |img.kernels|
            && Field32(p, 20) == |img.pool| + |img.blob| && Field32(p, 24) == |img.insns|
  {
    hide LE, Number, Table, Stream, Pool;
    var h := Header(img);
    var rest := Table(img.kernels, |img.kernels|) + img.pool + img.blob + Stream(img.insns, |img.insns|);
    assert Packed(img) == [] + h + rest;
    FieldInMiddle([], h, rest, 16, |img.kernels|);
    FieldInMiddle([], h, rest, 20, |img.pool| + |img.blob|);
    FieldInMiddle([], h, rest, 24, |img.insns|);
    assert Packed(img)[0..8] == LE(MAGIC, 8);
    Pow256Values();
    NumberLE(MAGIC, 8);
  }

  lemma {:induction false} TableSlice(ks: seq<Kernel>, n: nat, i: nat)
    requires i < n <= |ks|
    ensures Table(ks, n)[16 * i..16 * i + 16] == Entry(ks, i)
  {
    hide Entry;
    if i < n - 1 {
      TableSlice(ks, n - 1, i);
      assert Table(ks, n)[16 * i..16 * i + 16] == Table(ks, n - 1)[16 * i..16 * i + 16];
    }
  }

  lemma {:induction false} StreamSlice(insns: seq<Code>, n: nat, i: nat)
    requires i < n <= |insns|
    ensures Stream(insns, n)[8 * i..8 * i + 8] == LE(insns[i], 8)
  {
    hide LE;
    if i < n - 1 {
      StreamSlice(insns, n - 1, i);
      assert Stream(insns, n)[8 * i..8 * i + 8] == Stream(insns, n - 1)[8 * i..8 * i + 8];
    }
  }

  lemma PoolNext(ks: seq<Kernel>, i: nat)
    requires i < |ks|
    ensures Pool(ks, i + 1) == Pool(ks, i) + (ks[i].name + [0])
  {
    assert Pool(ks, i) + ks[i].name + [0] == Pool(ks, i) + (ks[i].name + [0]);
  }

  lemma SliceOfPrefix(a: seq<Byte>, b: seq<Byte>, i: nat, j: nat)
    requires i <= j <= |a|
    ensures (a + b)[i..j] == a[i..j]
  {
  }

  lemma {:induction false} PoolSlice(ks: seq<Kernel>, n: nat, i: nat)
    requires i < n <= |ks|
    ensures NameOff(ks, i) + |ks[i].name| + 1 <= |Pool(ks, n)|
    ensures Pool(ks, n)[NameOff(ks, i)..NameOff(ks, i) + |ks[i].name| + 1] == ks[i].name + [0]
  {
    hide Pool;
    PoolNext(ks, n - 1);
    if i < n - 1 {
      PoolSlice(ks, n - 1, i);
      SliceOfPrefix(Pool(ks, n - 1), ks[n - 1].name + [0], NameOff(ks, i), NameOff(ks, i) + |ks[i].name| + 1);
    }
  }

  lemma SliceOfSlice(s: seq<Byte>, a: nat, b: nat, i: nat, j: nat)
    requires a <= b <= |s| && i <= j <= b - a
    ensures s[a..b][i..j] == s[a + i..a + j]
  {
    var x, y := s[a..b][i..j], s[a + i..a + j];
    forall k | 0 <= k < j - i ensures x[k] == y[k] {
      assert x[k] == s[a..b][i + k] && y[k] == s[a + i + k];
    }
    assert |x| == |y|;
  }

  lemma EntryPieces(ks: seq<Kernel>, i: nat)
    requires i < |ks|
    ensures var e := Entry(ks, i);
            && e[0..4] == LE(NameOff(ks, i) % WORD, 4) && e[4..8] == LE(ks[i].entry * 8 % WORD, 4)
            && e[8..12] == LE(ks[i].nargs, 4)
  {
    hide LE, NameOff;
  }

  lemma FieldInTable(a: seq<Byte>, t: seq<Byte>, rest: seq<Byte>, lo: nat, at: nat, v: nat)
    requires lo + 16 <= |t| && at + 4 <= 16 && t[lo..lo + 16][at..at + 4] == LE(v, 4) && v < WORD
    ensures Field32(a + t + rest, |a| + lo + at) == v
  {
    hide LE, Field32;
    SliceOfSlice(t, lo, lo + 16, at, at + 4);
    FieldInMiddle(a, t, rest, lo + at, v);
  }

  lemma TableInMiddle(img: Image)
    ensures Packed(img) == Header(img) + Table(img.kernels, |img.kernels|)
                           + (img.pool + img.blob + Stream(img.insns, |img.insns|))
  {
    hide Header, Table, Stream;
  }

  lemma NameOffFits(img: Image, i: nat)
    requires img.WellFormed() && i < |img.kernels|
    ensures NameOff(img.kernels, i) + |img.kernels[i].name| + 1 <= |img.pool| < WORD
  {
    PoolSlice(img.kernels, |img.kernels|, i);
    hide NameOff;
  }

  /** The fields of table entry i. */
  lemma EntryFields(img: Image, i: nat)
    requires img.WellFormed() && i < |img.kernels|
    ensures var p, e, k := Packed(img), HEADER + 16 * i, img.kernels[i];
            && Field32(p, e) == NameOff(img.kernels, i) && Field32(p, e + 4) == k.entry * 8 % WORD
            && Field32(p, e + 8) == k.nargs && NameOff(img.kernels, i) + |k.name| + 1 <= |img.pool|
  {
    hide LE, Table, Stream, Entry, NameOff, Packed, Field32, Header, Image.WellFormed;
    var ks, h, t := img.kernels, Header(img), Table(img.kernels, |img.kernels|);
    var rest := img.pool + img.blob + Stream(img.insns, |img.insns|);
    HeaderFields(img);
    TableInMiddle(img);
    NameOffFits(img, i);
    TableSlice(ks, |ks|, i);
    EntryPieces(ks, i);
    FieldInTable(h, t, rest, 16 * i, 0, NameOff(ks, i));
    FieldInTable(h, t, rest, 16 * i, 4, ks[i].entry * 8 % WORD);
    FieldInTable(h, t, rest, 16 * i, 8, ks[i].nargs);
  }

  // ---------- Names ----------

  lemma {:induction false} NameFound(buf: seq<Byte>, at: nat, limit: nat, name: seq<Byte>)
    requires at + limit <= |buf| && |name| <= limit && at + |name| < |buf|
    requires buf[at..at + |name|] == name && (|name| < limit ==> buf[at + |name|] == 0)
    requires forall i :: 0 <= i < |name| ==> name[i] != 0
    ensures NameAt(buf, at, limit) == name
    decreases |name|
  {
    if name != [] {
      assert name[0] == buf[at];
      NameFound(buf, at + 1, limit - 1, name[1..]);
    }
  }

  /** A name and its NUL inside a pool that lies inside a buffer. */
  lemma NameInMiddle(a: seq<Byte>, pool: seq<Byte>, c: seq<Byte>, off: nat, name: seq<Byte>)
    requires off + |name| + 1 <= |pool| && pool[off..off + |name| + 1] == name + [0]
    ensures var p, at := a + pool + c, |a| + off; p[at..at + |name|] == name && p[at + |name|] == 0
  {
    var p, at, both := a + pool + c, |a| + off, name + [0];
    Middle(a, pool, c, off, |name| + 1);
    SliceOfSlice(p, at, at + |name| + 1, 0, |name|);
    assert both[0..|name|] == name;
    assert p[at..at + |name| + 1][|name|] == both[|name|];
  }

  /** What comes before the names. */
  function Front(img: Image): seq<Byte> { Header(img) + Table(img.kernels, |img.kernels|) }

  function Behind(img: Image): seq<Byte> { img.blob + Stream(img.insns, |img.insns|) }

  lemma FrontLength(img: Image)
    ensures |Front(img)| == HEADER + 16 * |img.kernels|
  {
    hide LE, Table;
  }

  lemma PoolInMiddle(img: Image)
    ensures Packed(img) == Front(img) + img.pool + Behind(img)
  {
    hide Header, Table, Stream;
  }

  lemma NameSlice(img: Image, i: nat)
    requires img.WellFormed() && i < |img.kernels|
    ensures var off, name := NameOff(img.kernels, i), img.kernels[i].name;
            off + |name| + 1 <= |img.pool| && img.pool[off..off + |name| + 1] == name + [0]
  {
    PoolSlice(img.kernels, |img.kernels|, i);
    hide NameOff, GoodName;
  }

  lemma NameInPool(img: Image, i: nat)
    requires img.WellFormed() && i < |img.kernels|
    ensures var p, at, name := Packed(img), HEADER + 16 * |img.kernels| + NameOff(img.kernels, i), img.kernels[i].name;
            at + |name| + 1 <= |p| && p[at..at + |name|] == name && p[at + |name|] == 0
  {
    hide NameOff, Packed, Front, Behind, Image.WellFormed;
    NameSlice(img, i);
    FrontLength(img);
    PoolInMiddle(img);
    NameInMiddle(Front(img), img.pool, Behind(img), NameOff(img.kernels, i), img.kernels[i].name);
  }

  // ---------- The round trip ----------

  /** What survives of a kernel: the entry, modulo the range of its packed field. */
  function Survives(k: Kernel): Kernel { k.(entry := k.entry % ENTRY_LIMIT) }

  function Surviving(ks: seq<Kernel>, n: nat): (r: seq<Kernel>)
    requires n <= |ks|
    ensures |r| == n && forall i :: 0 <= i < n ==> r[i] == Survives(ks[i])
  {
    if n == 0 then [] else Surviving(ks, n - 1) + [Survives(ks[n - 1])]
  }

  lemma KernelRoundTrip(img: Image, i: nat)
    requires img.WellFormed() && i < |img.kernels|
    ensures ParseKernel(Packed(img), HEADER + 16 * |img.kernels|, |img.pool| + |img.blob|, i)
            == Some(Survives(img.kernels[i]))
  {
    hide LE, Number, Table, Stream, Pool, NameAt, Packed;
    var p, k, nconst := Packed(img), img.kernels[i], |img.pool| + |img.blob|;
    var noff := NameOff(img.kernels, i);
    EntryFields(img, i);
    NameInPool(img, i);
    assert GoodName(k.name);
    var limit := if nconst - noff < MAX_NAME - 1 then nconst - noff else MAX_NAME - 1;
    NameFound(p, HEADER + 16 * |img.kernels| + noff, limit, k.name);
    EntryField(k.entry);
  }

  lemma EntryField(entry: Word)
    ensures entry * 8 % WORD % 8 == 0 && entry * 8 % WORD / 8 == entry % ENTRY_LIMIT
  {
    var q, r := entry / ENTRY_LIMIT, entry % ENTRY_LIMIT;
    assert entry * 8 == q * WORD + r * 8;
    assert entry * 8 % WORD == r * 8;
  }

  lemma {:induction false} KernelsRoundTrip(img: Image, n: nat)
    requires img.WellFormed() && n <= |img.kernels|
    ensures ParseKernels(Packed(img), HEADER + 16 * |img.kernels|, |img.pool| + |img.blob|, n)
            == Some(Surviving(img.kernels, n))
  {
    hide LE, Packed, ParseKernel, Image.WellFormed;
    if n > 0 {
      KernelsRoundTrip(img, n - 1);
      KernelRoundTrip(img, n - 1);
    }
  }

  lemma {:induction false} NamesArePool(ks: seq<Kernel>, n: nat)
    requires n <= |ks|
    ensures NamesLength(Surviving(ks, |ks|), n) == |Pool(ks, n)|
  {
    if n > 0 { NamesArePool(ks, n - 1); }
  }

  /**
    The container round trip: a packed image parses to the same names, argument counts,
    instruction words and constant bytes, and to the same entries modulo 2^29.
   */
  lemma RoundTrip(img: Image)
    requires img.WellFormed()
    ensures Parse(Packed(img)).Some?
    ensures var p, r := Packed(img), Parse(Packed(img)).value;
            && r.kernels == Surviving(img.kernels, |img.kernels|)
            && r.ninsn == |img.insns| && r.streamAt + 8 * r.ninsn == |p|
            && (forall i :: 0 <= i < |img.insns| ==> Field64(p, r.streamAt + 8 * i) == img.insns[i])
            && r.blobAt <= r.streamAt && p[r.blobAt..r.streamAt] == img.blob
  {
    hide LE, Number, Table, Stream, Pool, GoodName, ParseKernels, Packed, NamesLength, Header;
    var p := Packed(img);
    HeaderFields(img);
    KernelsRoundTrip(img, |img.kernels|);
    NamesArePool(img.kernels, |img.kernels|);
    BlobAndStream(img);
  }

  lemma BlobAndStream(img: Image)
    requires img.WellFormed()
    ensures var p := Packed(img);
            var at := HEADER + 16 * |img.kernels| + |img.pool|;
            && p[at..at + |img.blob|] == img.blob
            && forall i :: 0 <= i < |img.insns| ==> Field64(p, at + |img.blob| + 8 * i) == img.insns[i]
  {
    hide LE, Number, Table, Stream, Pool, GoodName;
    HeaderFields(img);
    var p, ks := Packed(img), img.kernels;
    var before, s := Header(img) + Table(ks, |ks|) + img.pool, Stream(img.insns, |img.insns|);
    assert p == before + img.blob + s;
    Middle(before, img.blob, s, 0, |img.blob|);
    assert img.blob[0..|img.blob|] == img.blob;
    Pow256Values();
    forall i | 0 <= i < |img.insns|
      ensures Field64(p, |before| + |img.blob| + 8 * i) == img.insns[i]
    {
      StreamSlice(img.insns, |img.insns|, i);
      assert p == (before + img.blob) + s + [];
      Middle(before + img.blob, s, [], 8 * i, 8);
      NumberLE(img.insns[i], 8);
    }
  }

  /** The kernel table comes back exactly when every entry fits its packed field. */
  lemma RoundTripIff(img: Image)
    requires img.WellFormed()
    ensures Parse(Packed(img)).Some?
    ensures Parse(Packed(img)).value.kernels == img.kernels
            <==> forall i :: 0 <= i < |img.kernels| ==> img.kernels[i].entry < ENTRY_LIMIT
  {
    hide Image.WellFormed, Parse, Packed;
    RoundTrip(img);
    var ks := img.kernels;
    var got := Surviving(ks, |ks|);
    if forall i :: 0 <= i < |ks| ==> ks[i].entry < ENTRY_LIMIT {
      assert forall i :: 0 <= i < |ks| ==> got[i] == ks[i];
      assert got == ks;
    }
    if got == ks {
      forall i | 0 <= i < |ks| ensures ks[i].entry < ENTRY_LIMIT {
        assert got[i] == Survives(ks[i]) && got[i] == ks[i];
      }
    }
  }

  /** Kernels, words and constant bytes are all found again. */
  ghost predicate Recovered(img: Image) {
    && Parse(Packed(img)).Some?
    && var p, r := Packed(img), Parse(Packed(img)).value;
       && r.kernels == img.kernels && r.ninsn == |img.insns| && r.streamAt + 8 * r.ninsn == |p|
       && (forall i :: 0 <= i < |img.insns| ==> Field64(p, r.streamAt + 8 * i) == img.insns[i])
       && r.blobAt <= r.streamAt && p[r.blobAt..r.streamAt] == img.blob
  }

  /** For every image that can be built: that is so exactly when all fits the 32-bit fields. */
  lemma RecoveredIff(img: Image)
    requires img.Built()
    ensures Recovered(img) <==>
            |img.pool| + |img.blob| < WORD && forall i :: 0 <= i < |img.kernels| ==> img.kernels[i].entry < ENTRY_LIMIT
  {
    hide Recovered;
    if |img.pool| + |img.blob| < WORD { FittingRecovered(img); } else { TooLarge(img); }
  }

  lemma FittingRecovered(img: Image)
    requires img.WellFormed()
    ensures Recovered(img) <==> forall i :: 0 <= i < |img.kernels| ==> img.kernels[i].entry < ENTRY_LIMIT
  {
    hide Image.WellFormed, Parse, Packed, Field64, Surviving;
    RoundTrip(img);
    RoundTripIff(img);
  }

  lemma TooLarge(img: Image)
    requires img.Built() && |img.pool| + |img.blob| >= WORD
    ensures !Recovered(img)
  {
    assert img.pool == Pool(img.kernels, |img.kernels|);
    NamesOfKernels(img.kernels, |img.kernels|);
    hide Image.Built, Packed, Parse, Pool, Field64;
    if Parse(Packed(img)).Some? { RegionBound(Packed(img)); }
  }

  /**
    The count of constant bytes is another matter: the parser sets it to the whole region, names
    included, so that it comes back exactly for images without kernels.
   */
  lemma ConstantCountIff(img: Image)
    requires img.WellFormed()
    ensures Parse(Packed(img)).Some? && Parse(Packed(img)).value.nconst == |img.pool| + |img.blob|
    ensures Parse(Packed(img)).value.nconst == |img.blob| <==> img.kernels == []
  {
    RoundTrip(img);
    hide Packed, ParseKernels, GoodName;
    HeaderFields(img);
    NamesTakeRoom(img.kernels, |img.kernels|);
  }

  lemma NamesTakeRoom(ks: seq<Kernel>, n: nat)
    requires n <= |ks|
    ensures |Pool(ks, n)| >= n
  {
    if n > 0 { NamesTakeRoom(ks, n - 1); }
  }

  /** Everything that the parsed image holds is as it was in the packed one, the count included. */
  ghost predicate Lossless(img: Image) {
    Recovered(img) && Parse(Packed(img)).value.nconst == |img.blob|
  }

  lemma LosslessIff(img: Image)
    requires img.Built()
    ensures Lossless(img) <==> img.kernels == [] && |img.blob| < WORD
  {
    hide Recovered, Parse, Packed;
    RecoveredIff(img);
    assert img.kernels == [] ==> img.pool == [];
    if |img.pool| + |img.blob| < WORD { ConstantCountIff(img); }
  }

  /** A single kernel named "a" is found again, but two constant bytes are counted where none were. */
  lemma NameIsCounted()
    ensures var img := Image([Kernel([97], 0, 0)], [], [97, 0], []);
            && img.Built() && Recovered(img) && !Lossless(img) && Parse(Packed(img)).value.nconst == 2
  {
    var k := Kernel([97], 0, 0);
    var img := Image([k], [], [97, 0], []);
    assert Pool([k], 0) + k.name + [0] == [97, 0];
    assert img.Built();
    hide Recovered, Lossless, Parse, Packed, Image.Built;
    RecoveredIff(img);
    LosslessIff(img);
    ConstantCountIff(img);
  }

  /** A kernel with entry 2^29 comes back with entry 0. */
  lemma LargeEntryIsLost()
    ensures var k := Kernel([97], ENTRY_LIMIT, 0);
            var img := Image([k], [], [97, 0], []);
            && img.Built() && !Recovered(img) && Survives(k).entry == 0
            && Parse(Packed(img)).Some? && Parse(Packed(img)).value.kernels == [Survives(k)]
  {
    var k := Kernel([97], ENTRY_LIMIT, 0);
    var img := Image([k], [], [97, 0], []);
    assert Pool([k], 0) + k.name + [0] == [97, 0];
    assert img.Built();
    hide Recovered, Parse, Packed, Image.Built;
    RecoveredIff(img);
    RoundTrip(img);
    assert Surviving([k], 1) == [Survives(k)];
  }

  lemma NamesOfKernels(ks: seq<Kernel>, n: nat)
    requires n <= |ks|
    ensures NamesLength(ks, n) == |Pool(ks, n)|
  {
    if n > 0 { NamesOfKernels(ks, n - 1); }
  }

  /** The constant region that a parser hands out has the length of its 32-bit field, less the names. */
  lemma RegionBound(buf: seq<Byte>)
    requires Parse(buf).Some?
    ensures var r := Parse(buf).value; NamesLength(r.kernels, |r.kernels|) + (r.streamAt - r.blobAt) < WORD
  {
    hide ParseKernels, Number;
    FieldBound(buf, 20);
  }

  /** Every strict prefix of a packed image is refused. */
  lemma PrefixRefused(img: Image, n: nat)
    requires img.WellFormed() && n < |Packed(img)|
    ensures Parse(Packed(img)[..n]).None?
  {
    hide Number, LE, Pool, GoodName, Table, Stream, ParseKernels, Packed;
    HeaderFields(img);
    var p := Packed(img);
    if n >= HEADER {
      assert p[..n][0..8] == p[0..8] && p[..n][16..20] == p[16..20] && p[..n][20..24] == p[20..24]
          && p[..n][24..28] == p[24..28];
    }
  }

  /** Whatever bytes the parser accepts, the regions it hands out lie inside them. */
  lemma ParsedInBounds(buf: seq<Byte>)
    requires Parse(buf).Some?
    ensures var r := Parse(buf).value;
            && r.blobAt <= r.streamAt && r.streamAt + 8 * r.ninsn <= |buf|
            && |r.kernels| <= MAX_KERNELS && r.ninsn <= MAX_INSN
    ensures forall i :: 0 <= i < |Parse(buf).value.kernels| ==> ValidName(Parse(buf).value.kernels[i].name)
  {
    hide ParseKernel, Number;
    var nkern, nconst := Field32(buf, 16), Field32(buf, 20);
    FieldBound(buf, 20);
    AskedExact(nkern, nconst, Field32(buf, 24));
    KernelsParsed(buf, HEADER + 16 * nkern, nconst, nkern);
  }

  ghost predicate ValidName(name: seq<Byte>) {
    |name| < MAX_NAME && forall i :: 0 <= i < |name| ==> name[i] != 0
  }

  lemma {:induction false} KernelsParsed(buf: seq<Byte>, c0: nat, nconst: nat, n: nat)
    requires HEADER + 16 * n <= c0 && c0 + nconst <= |buf| && ParseKernels(buf, c0, nconst, n).Some?
    ensures var ks := ParseKernels(buf, c0, nconst, n).value;
            |ks| == n && forall i :: 0 <= i < n ==> ValidName(ks[i].name)
  {
    if n > 0 { KernelsParsed(buf, c0, nconst, n - 1); }
  }
}
