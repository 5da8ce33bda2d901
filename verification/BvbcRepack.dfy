/** What packing a parsed image gives. */
module BvbcRepack {
  import opened Bits
  import opened BradVector
  import opened Bvbc
  import opened BvbcRoundTrip

  function CodeAt(buf: seq<Byte>, at: nat): (w: Code)
    requires at + 8 <= |buf|
    ensures w == Field64(buf, at)
  {
    Pow256Values();
    NumberBound(buf[at..at + 8]);
    Field64(buf, at)
  }

  /** The instruction words of a parsed buffer. */
  function ParsedWords(buf: seq<Byte>, r: Parsed): (ws: seq<Code>)
    requires r.streamAt + 8 * r.ninsn <= |buf|
    ensures |ws| == r.ninsn && forall i :: 0 <= i < |ws| ==> ws[i] == Field64(buf, r.streamAt + 8 * i)
  {
    seq(r.ninsn, i requires 0 <= i < r.ninsn => CodeAt(buf, r.streamAt + 8 * i))
  }

  /**
    The image that the parser leaves behind: its names are no longer pooled, and its constants
    start behind the names but are counted with them, so that they run on into the stream.
   */
  function Reopened(buf: seq<Byte>): Image
    requires Parse(buf).Some? && Parse(buf).value.blobAt + Parse(buf).value.nconst <= |buf|
  {
    var r := Parse(buf).value;
    ParsedInBounds(buf);
    Image(r.kernels, ParsedWords(buf, r), [], buf[r.blobAt..r.blobAt + r.nconst])
  }

  /** The words of a parsed image are those of the packed one. */
  lemma ReopenedWords(img: Image)
    requires img.WellFormed()
    ensures Parse(Packed(img)).Some?
    ensures var r := Parse(Packed(img)).value;
            r.streamAt + 8 * r.ninsn <= |Packed(img)| && ParsedWords(Packed(img), r) == img.insns
  {
    hide Parse, Packed, Image.WellFormed, Field64;
    RoundTrip(img);
  }

  /** Its constants lie inside the buffer exactly when the names are no longer than the stream. */
  lemma ReopenFitsIff(img: Image)
    requires img.WellFormed()
    ensures Parse(Packed(img)).Some?
    ensures var r := Parse(Packed(img)).value;
            r.blobAt + r.nconst <= |Packed(img)| <==> |img.pool| <= 8 * |img.insns|
  {
    RoundTrip(img);
    ConstantCountIff(img);
    BlobPlace(img);
    hide Parse, Packed, Field64;
  }

  /** Where the parser finds the constants. */
  lemma BlobPlace(img: Image)
    requires img.WellFormed()
    ensures Parse(Packed(img)).Some?
    ensures Parse(Packed(img)).value.blobAt == HEADER + 16 * |img.kernels| + |img.pool|
  {
    RoundTrip(img);
    hide Packed, ParseKernels, GoodName, Pool;
    HeaderFields(img);
    NamesArePool(img.kernels, |img.kernels|);
  }

  /** The constant region of the image packed again. */
  function NewRegion(img: Image): seq<Byte>
    requires |img.pool| <= 8 * |img.insns|
  {
    (img.blob + Stream(img.insns, |img.insns|))[..|img.pool| + |img.blob|]
  }

  lemma PackedInThree(img: Image)
    ensures Packed(img) == Front(img) + (img.pool + img.blob) + Stream(img.insns, |img.insns|)
  {
    hide Header, Table, Stream;
  }

  lemma Regroup(a: seq<Byte>, b: seq<Byte>, c: seq<Byte>, d: seq<Byte>)
    ensures a + (b + c) + d == (a + b) + (c + d) + []
  {
  }

  lemma ReopenedBlob(img: Image)
    requires img.WellFormed() && |img.pool| <= 8 * |img.insns|
    ensures Parse(Packed(img)).Some?
    ensures var r := Parse(Packed(img)).value;
            && r.nconst == |img.pool| + |img.blob| && r.blobAt + r.nconst <= |Packed(img)|
            && Packed(img)[r.blobAt..r.blobAt + r.nconst] == NewRegion(img)
  {
    hide Parse, Packed, Header, Table, Stream, Front, Image.WellFormed;
    ReopenFitsIff(img);
    BlobPlace(img);
    ConstantCountIff(img);
    FrontLength(img);
    PackedInThree(img);
    var s := Stream(img.insns, |img.insns|);
    Regroup(Front(img), img.pool, img.blob, s);
    Middle(Front(img) + img.pool, img.blob + s, [], 0, |img.pool| + |img.blob|);
  }

  // ---------- The table written again ----------

  lemma {:induction false} PoolSurvives(ks: seq<Kernel>, n: nat)
    requires n <= |ks|
    ensures Pool(Surviving(ks, |ks|), n) == Pool(ks, n)
  {
    if n > 0 { PoolSurvives(ks, n - 1); }
  }

  lemma FieldSurvives(entry: Word)
    ensures entry % ENTRY_LIMIT * 8 % WORD == entry * 8 % WORD
  {
    EntryField(entry);
  }

  lemma EntrySurvives(ks: seq<Kernel>, i: nat)
    requires i < |ks|
    ensures Entry(Surviving(ks, |ks|), i) == Entry(ks, i)
  {
    var got := Surviving(ks, |ks|);
    assert got[i] == Survives(ks[i]);
    PoolSurvives(ks, i);
    FieldSurvives(ks[i].entry);
    SameEntry(got, ks, i);
  }

  lemma SameEntry(a: seq<Kernel>, b: seq<Kernel>, i: nat)
    requires i < |a| && i < |b| && NameOff(a, i) == NameOff(b, i)
    requires a[i].entry * 8 % WORD == b[i].entry * 8 % WORD && a[i].nargs == b[i].nargs
    ensures Entry(a, i) == Entry(b, i)
  {
    hide LE, NameOff;
  }

  lemma {:induction false} TableSurvives(ks: seq<Kernel>, n: nat)
    requires n <= |ks|
    ensures Table(Surviving(ks, |ks|), n) == Table(ks, n)
  {
    hide Entry, Surviving;
    if n > 0 {
      TableSurvives(ks, n - 1);
      EntrySurvives(ks, n - 1);
    }
  }

  /** Images whose kernels differ in lost entry bits only, and whose regions have the same length. */
  lemma SameFront(a: Image, b: Image)
    requires a.kernels == Surviving(b.kernels, |b.kernels|) && |a.insns| == |b.insns|
    requires |a.pool| + |a.blob| == |b.pool| + |b.blob|
    ensures Front(a) == Front(b)
  {
    hide LE, Table;
    TableSurvives(b.kernels, |b.kernels|);
  }

  /** Packing again writes the same header, table and stream around the new region. */
  lemma RepackedBytes(img: Image)
    requires img.WellFormed() && |img.pool| <= 8 * |img.insns|
    ensures Parse(Packed(img)).Some?
    ensures var r := Parse(Packed(img)).value; r.blobAt + r.nconst <= |Packed(img)|
    ensures Packed(Reopened(Packed(img))) == Front(img) + NewRegion(img) + Stream(img.insns, |img.insns|)
  {
    hide Parse, Packed, Front, Stream, NewRegion, Image.WellFormed;
    ReopenedBlob(img);
    ReopenedWords(img);
    RoundTrip(img);
    var again := Reopened(Packed(img));
    RegionLength(img);
    SameFront(again, img);
    PackedInThree(again);
    assert [] + again.blob == again.blob;
  }

  /**
    Unpacking and packing again gives the same bytes if and only if the names and constants happen
    to be what follows the names: the constants and the beginning of the instruction stream.
   */
  lemma RepackIff(img: Image)
    requires img.WellFormed() && |img.pool| <= 8 * |img.insns|
    ensures Parse(Packed(img)).Some?
    ensures var r := Parse(Packed(img)).value; r.blobAt + r.nconst <= |Packed(img)|
    ensures Packed(Reopened(Packed(img))) == Packed(img) <==> img.pool + img.blob == NewRegion(img)
  {
    hide Parse, Packed, Front, Stream, Reopened, Image.WellFormed;
    RepackedBytes(img);
    PackedInThree(img);
    RegionLength(img);
    SameAround(Front(img), img.pool + img.blob, NewRegion(img), Stream(img.insns, |img.insns|));
  }

  lemma RegionLength(img: Image)
    requires |img.pool| <= 8 * |img.insns|
    ensures |NewRegion(img)| == |img.pool| + |img.blob|
  {
    hide Stream;
  }

  lemma SameAround(a: seq<Byte>, b: seq<Byte>, c: seq<Byte>, d: seq<Byte>)
    requires |b| == |c|
    ensures a + b + d == a + c + d <==> b == c
  {
    if a + b + d == a + c + d {
      assert b == (a + b + d)[|a|..|a| + |b|];
      assert c == (a + c + d)[|a|..|a| + |b|];
    }
  }

  /** So it does without kernels. */
  lemma RepackWithoutKernels(img: Image)
    requires img.WellFormed() && img.kernels == []
    ensures Parse(Packed(img)).Some?
    ensures var r := Parse(Packed(img)).value; r.blobAt + r.nconst <= |Packed(img)|
    ensures Packed(Reopened(Packed(img))) == Packed(img)
  {
    NothingDropped(img);
    hide Parse, Packed, Reopened, Image.WellFormed, NewRegion;
    RepackIff(img);
  }

  lemma NothingDropped(img: Image)
    requires img.WellFormed() && img.kernels == []
    ensures |img.pool| <= 8 * |img.insns| && img.pool + img.blob == NewRegion(img)
  {
    assert img.pool == [];
    hide Stream;
    assert img.pool + img.blob == NewRegion(img);
  }

  // ---------- Witnesses ----------

  /** One kernel named "a" and one instruction word. */
  function OneWord(w: Code): Image { Image([Kernel([97], 0, 0)], [w], [97, 0], []) }

  lemma OneWordRegion(w: Code)
    ensures OneWord(w).WellFormed() && NewRegion(OneWord(w)) == [w % 256, w / 256 % 256]
  {
    var k := Kernel([97], 0, 0);
    assert Pool([k], 0) + k.name + [0] == [97, 0];
    assert OneWord(w).Built();
    LowBytes(w);
    assert Stream([w], 0) + LE(w, 8) == LE(w, 8);
    assert Stream([w], 1) == LE(w, 8);
    assert ([] + LE(w, 8))[..2] == LE(w, 8)[..2];
  }

  lemma LowBytes(w: Code)
    ensures LE(w, 8)[..2] == [w % 256, w / 256 % 256]
  {
    assert LE(w, 8) == [w % 256] + LE(w / 256, 7);
    assert LE(w / 256, 7) == [w / 256 % 256] + LE(w / 256 / 256, 6);
  }

  /** Its name is lost by unpacking and packing again, unless the word starts with the same two bytes. */
  lemma NameIsOverwritten(w: Code)
    ensures Parse(Packed(OneWord(w))).Some?
    ensures var r := Parse(Packed(OneWord(w))).value; r.blobAt + r.nconst <= |Packed(OneWord(w))|
    ensures Packed(Reopened(Packed(OneWord(w)))) == Packed(OneWord(w)) <==> w % 0x1_0000 == 97
  {
    OneWordRegion(w);
    hide Parse, Packed, Reopened, NewRegion, Image.WellFormed;
    RepackIff(OneWord(w));
    assert [97, 0] + [] == [97, 0];
    var pair: seq<Byte> := [w % 256, w / 256 % 256];
    assert pair == [97, 0] <==> pair[0] == 97 && pair[1] == 0;
  }
}
