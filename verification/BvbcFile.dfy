/** The image under construction, and its packing and parsing in byte buffers. */
module BvbcFile {
  import opened Bits
  import opened BradVector
  import opened Bvbc

  class ImageFile {
    var kernels: seq<Kernel>
    var insns: seq<Code>
    var pool: seq<Byte>
    var blob: seq<Byte>

    function Value(): Image
      reads this
    {
      Image(kernels, insns, pool, blob)
    }

    constructor ()
      ensures Value() == EMPTY
    {
      kernels, insns, pool, blob := [], [], [], [];
    }

    /** bvbc_add_kernel: the new index, or -1 and no change. */
    method AddKernel(name: seq<Byte>, entry: Word, nargs: Word) returns (index: int)
      modifies this
      ensures var after := Bvbc.AddKernel(old(Value()), name, entry, nargs);
              if after.None? then index == -1 && Value() == old(Value())
              else Value() == after.value && index == |kernels| - 1
    {
      if |kernels| >= MAX_KERNELS || |name| == 0 || |name| >= MAX_NAME || |pool| + |name| + 1 > POOL_SIZE {
        return -1;
      }
      pool := pool + name + [0];
      kernels := kernels + [Kernel(name, entry, nargs)];
      index := |kernels| - 1;
    }

    /** bvbc_emit. */
    method Emit(w: Code) returns (index: int)
      modifies this
      ensures var after := Bvbc.Emit(old(Value()), w);
              if after.None? then index == -1 && Value() == old(Value())
              else Value() == after.value && index == |insns| - 1
    {
      if |insns| >= MAX_INSN { return -1; }
      insns := insns + [w];
      index := |insns| - 1;
    }

    /** bvbc_find_kernel: the first kernel of that name. */
    method FindKernel(name: seq<Byte>) returns (index: int)
      ensures -1 <= index < |kernels|
      ensures index >= 0 ==> kernels[index].name == name && forall j :: 0 <= j < index ==> kernels[j].name != name
      ensures index < 0 ==> forall j :: 0 <= j < |kernels| ==> kernels[j].name != name
      ensures Lookup(kernels, name) == if index < 0 then None else Some(kernels[index])
    {
      for i := 0 to |kernels|
        invariant forall j :: 0 <= j < i ==> kernels[j].name != name
      {
        if kernels[i].name == name {
          LookupFirst(kernels, name, i);
          return i;
        }
      }
      LookupFirst(kernels, name, |kernels|);
      index := -1;
    }

    /** kernel_name_off. */
    method NameOffset(ki: nat) returns (off: nat)
      requires ki <= |kernels|
      ensures off == NameOff(kernels, ki)
    {
      off := 0;
      for i := 0 to ki
        invariant off == NameOff(kernels, i)
      {
        off := off + |kernels[i].name| + 1;
      }
    }

    /**
      bvbc_pack: nothing is written when the buffer is too small; otherwise exactly the
      packed form, and the rest of the buffer is kept.
     */
    method Pack(buf: array<Byte>) returns (total: nat)
      modifies buf
      ensures if buf.Length < Value().Size() then total == 0 && buf[..] == old(buf[..])
              else total == Value().Size() && buf[..] == Packed(Value()) + old(buf[..])[total..]
    {
      hide LE, Pool, Table, Stream, Header;
      total := HEADER + 16 * |kernels| + |pool| + |blob| + 8 * |insns|;
      if buf.Length < total { return 0; }
      ghost var was := buf[..];
      PackHeader(buf);
      PackTable(buf, Header(Value()), was);
      ghost var head := Header(Value()) + Table(kernels, |kernels|);
      var at := HEADER + 16 * |kernels|;
      Append(buf, at, pool, head, was);
      Append(buf, at + |pool|, blob, head + pool, was);
      PackStream(buf, at + |pool| + |blob|, head + pool + blob, was);
    }

    method PackTable(buf: array<Byte>, ghost done: seq<Byte>, ghost was: seq<Byte>)
      requires |done| == HEADER && HEADER + 16 * |kernels| <= |was| && buf[..] == done + was[HEADER..]
      modifies buf
      ensures buf[..] == done + Table(kernels, |kernels|) + was[HEADER + 16 * |kernels|..]
    {
      hide LE, Pool, Entry;
      assert done + Table(kernels, 0) == done;
      hide Table;
      for i := 0 to |kernels|
        invariant buf[..] == done + Table(kernels, i) + was[HEADER + 16 * i..]
      {
        PackEntry(buf, i, done + Table(kernels, i), was);
        TableNext(kernels, i);
        Regroup(done, Table(kernels, i), Entry(kernels, i));
      }
    }

    method PackStream(buf: array<Byte>, at: nat, ghost done: seq<Byte>, ghost was: seq<Byte>)
      requires |done| == at && at + 8 * |insns| <= |was| && buf[..] == done + was[at..]
      modifies buf
      ensures buf[..] == done + Stream(insns, |insns|) + was[at + 8 * |insns|..]
    {
      hide LE;
      assert done + Stream(insns, 0) == done;
      hide Stream;
      for i := 0 to |insns|
        invariant buf[..] == done + Stream(insns, i) + was[at + 8 * i..]
      {
        WriteNumber(buf, at + 8 * i, insns[i], 8, done + Stream(insns, i), was);
        StreamNext(insns, i);
        Regroup(done, Stream(insns, i), LE(insns[i], 8));
      }
    }

    method PackHeader(buf: array<Byte>)
      requires HEADER <= buf.Length
      modifies buf
      ensures |Header(Value())| == HEADER && buf[..] == Header(Value()) + old(buf[..])[HEADER..]
    {
      hide LE;
      ghost var was := buf[..];
      ghost var h := PackIdentity(buf);
      PackCount(buf, 16, |kernels|, h, was);
      h := h + LE(|kernels|, 4);
      PackCount(buf, 20, (|pool| + |blob|) % WORD, h, was);
      h := h + LE((|pool| + |blob|) % WORD, 4);
      PackCount(buf, 24, |insns|, h, was);
      h := h + LE(|insns|, 4);
      PackCount(buf, 28, 0, h, was);
    }

    /** Magic, version and flags, and a place for the counts. */
    method PackIdentity(buf: array<Byte>) returns (ghost h: seq<Byte>)
      requires HEADER <= buf.Length
      modifies buf
      ensures h == LE(MAGIC, 8) + LE(1, 4) + LE(0, 4) && buf[..] == h + old(buf[..])[16..]
    {
      hide LE;
      ghost var was := buf[..];
      WriteNumber(buf, 0, MAGIC, 8, [], was);
      assert [] + LE(MAGIC, 8) == LE(MAGIC, 8);
      h := LE(MAGIC, 8);
      PackCount(buf, 8, 1, h, was);
      h := h + LE(1, 4);
      PackCount(buf, 12, 0, h, was);
      h := h + LE(0, 4);
    }

    method PackCount(buf: array<Byte>, at: nat, v: nat, ghost done: seq<Byte>, ghost was: seq<Byte>)
      requires at == |done| && at + 4 <= |was| && buf[..] == done + was[at..]
      modifies buf
      ensures buf[..] == (done + LE(v, 4)) + was[at + 4..] && |done + LE(v, 4)| == at + 4
    {
      WriteNumber(buf, at, v, 4, done, was);
    }

    method PackEntry(buf: array<Byte>, i: nat, ghost done: seq<Byte>, ghost was: seq<Byte>)
      requires i < |kernels| && |done| == HEADER + 16 * i && |done| + 16 <= |was|
      requires buf[..] == done + was[|done|..]
      modifies buf
      ensures buf[..] == done + Entry(kernels, i) + was[|done| + 16..]
    {
      hide LE;
      var at := HEADER + 16 * i;
      var off := NameOffset(i);
      WriteNumber(buf, at, off % WORD, 4, done, was);
      ghost var e := LE(off % WORD, 4);
      WriteNumber(buf, at + 4, kernels[i].entry * 8 % WORD, 4, done + e, was);
      Regroup(done, e, LE(kernels[i].entry * 8 % WORD, 4));
      e := e + LE(kernels[i].entry * 8 % WORD, 4);
      WriteNumber(buf, at + 8, kernels[i].nargs, 4, done + e, was);
      Regroup(done, e, LE(kernels[i].nargs, 4));
      e := e + LE(kernels[i].nargs, 4);
      WriteNumber(buf, at + 12, 0, 4, done + e, was);
      Regroup(done, e, LE(0, 4));
      e := e + LE(0, 4);
      assert e == Entry(kernels, i);
    }
  }

  lemma Regroup(a: seq<Byte>, b: seq<Byte>, c: seq<Byte>)
    ensures a + b + c == a + (b + c)
  {
  }

  lemma TableNext(ks: seq<Kernel>, i: nat)
    requires i < |ks|
    ensures Table(ks, i + 1) == Table(ks, i) + Entry(ks, i)
  {
  }

  lemma StreamNext(insns: seq<Code>, i: nat)
    requires i < |insns|
    ensures Stream(insns, i + 1) == Stream(insns, i) + LE(insns[i], 8)
  {
  }

  /** memcpy to the end of what is already written. */
  method Append(buf: array<Byte>, at: nat, src: seq<Byte>, ghost done: seq<Byte>, ghost was: seq<Byte>)
    requires at == |done| && |done| + |src| <= |was| && buf[..] == done + was[|done|..]
    modifies buf
    ensures buf[..] == done + src + was[|done| + |src|..]
  {
    for i := 0 to |src|
      invariant buf.Length == |was| && buf[..] == done + src[..i] + was[|done| + i..]
    {
      buf[at + i] := src[i];
    }
  }

  /** wr32 and wr64: the low bytes of v, least significant first. */
  method WriteNumber(buf: array<Byte>, at: nat, v: nat, n: nat, ghost done: seq<Byte>, ghost was: seq<Byte>)
    requires at == |done| && |done| + n <= |was| && buf[..] == done + was[|done|..]
    modifies buf
    ensures buf[..] == done + LE(v, n) + was[|done| + n..]
  {
    var rest := v;
    ghost var bytes: seq<Byte> := [];
    assert done + [] == done;
    for i := 0 to n
      invariant |bytes| == i && LE(v, n) == bytes + LE(rest, n - i)
      invariant buf.Length == |was| && buf[..] == done + bytes + was[|done| + i..]
    {
      buf[at + i] := rest % 256;
      bytes := bytes + [rest % 256];
      rest := rest / 256;
    }
    assert LE(v, n) == bytes;
  }

  /** rd32. */
  method Rd32(buf: array<Byte>, len: nat, at: nat) returns (v: nat)
    requires at + 4 <= len <= buf.Length
    ensures v == Field32(buf[..len], at)
  {
    v := buf[at] as int + 256 * (buf[at + 1] as int) + 0x1_0000 * (buf[at + 2] as int) + 0x100_0000 * (buf[at + 3] as int);
    FourBytes(buf[..len], at);
  }

  lemma FourBytes(b: seq<Byte>, at: nat)
    requires at + 4 <= |b|
    ensures Field32(b, at) == b[at] as int + 256 * (b[at + 1] as int) + 0x1_0000 * (b[at + 2] as int)
                              + 0x100_0000 * (b[at + 3] as int)
  {
    var w := b[at..at + 4];
    assert w[1..][1..] == w[2..] && w[2..][1..] == w[3..] && w[3..][1..] == [];
    assert Number(w[3..]) == w[3] as int;
    assert Number(w[2..]) == w[2] as int + 256 * Number(w[3..]);
    assert Number(w[1..]) == w[1] as int + 256 * Number(w[2..]);
  }

  /** The length of a name: up to a NUL or the limit. */
  method NameLength(buf: array<Byte>, len: nat, at: nat, limit: nat) returns (nl: nat)
    requires at + limit <= len <= buf.Length
    ensures nl <= limit && buf[at..at + nl] == NameAt(buf[..len], at, limit)
  {
    nl := 0;
    while nl < limit && buf[at + nl] != 0
      invariant nl <= limit
      invariant NameAt(buf[..len], at, limit) == buf[at..at + nl] + NameAt(buf[..len], at + nl, limit - nl)
    {
      nl := nl + 1;
    }
  }

  /** bvbc_unpack: every index stays inside the buffer, whatever its bytes. */
  method Unpack(buf: array<Byte>, len: nat) returns (r: Option<Parsed>)
    requires len <= buf.Length
    ensures r == Parse(buf[..len])
  {
    hide Number, NameAt;
    ghost var b := buf[..len];
    if len < HEADER { return None; }
    var magic := MagicAt(buf, len);
    if !magic { return None; }
    var nkern := Rd32(buf, len, 16);
    var nconst := Rd32(buf, len, 20);
    var ninsn := Rd32(buf, len, 24);
    if nkern > MAX_KERNELS || ninsn > MAX_INSN { return None; }
    var c0 := HEADER + 16 * nkern;
    FieldBound(b, 20);
    AskedExact(nkern, nconst, ninsn);
    if len < Asked(nkern, nconst, ninsn, TWO_64) { return None; }
    var ks: seq<Kernel> := [];
    for i := 0 to nkern
      invariant ParseKernels(b, c0, nconst, i) == Some(ks) && |ks| == i
    {
      var k := UnpackKernel(buf, len, c0, nconst, i);
      if k.None? {
        KernelsFail(b, c0, nconst, i, nkern);
        return None;
      }
      ks := ks + [k.value];
    }
    var names := 0;
    for i := 0 to nkern
      invariant names == NamesLength(ks, i)
    {
      names := names + |ks[i].name| + 1;
    }
    if names > nconst { return None; }
    r := Some(Parsed(ks, nconst, c0 + names, c0 + nconst, ninsn));
  }

  method UnpackKernel(buf: array<Byte>, len: nat, c0: nat, nconst: nat, i: nat) returns (k: Option<Kernel>)
    requires len <= buf.Length && HEADER + 16 * i + 16 <= c0 && c0 + nconst <= len
    ensures k == ParseKernel(buf[..len], c0, nconst, i)
  {
    hide Number, NameAt;
    var e := HEADER + 16 * i;
    var noff := Rd32(buf, len, e);
    var eoff := Rd32(buf, len, e + 4);
    var narg := Rd32(buf, len, e + 8);
    if noff >= nconst || eoff % 8 != 0 { return None; }
    FieldBound(buf[..len], e + 4);
    FieldBound(buf[..len], e + 8);
    var limit := if nconst - noff < MAX_NAME - 1 then nconst - noff else MAX_NAME - 1;
    var nl := NameLength(buf, len, c0 + noff, limit);
    k := Some(Kernel(buf[c0 + noff..c0 + noff + nl], eoff / 8, narg));
  }

  lemma {:induction false} KernelsFail(b: seq<Byte>, c0: nat, nconst: nat, i: nat, n: nat)
    requires i < n && HEADER + 16 * n <= c0 && c0 + nconst <= |b| && ParseKernel(b, c0, nconst, i).None?
    ensures ParseKernels(b, c0, nconst, n).None?
  {
    hide ParseKernel;
    if i < n - 1 { KernelsFail(b, c0, nconst, i, n - 1); }
  }

  /** memcmp against the magic bytes. */
  method MagicAt(buf: array<Byte>, len: nat) returns (ok: bool)
    requires 8 <= len <= buf.Length
    ensures ok == (Field64(buf[..len], 0) == MAGIC)
  {
    ok := true;
    var rest: nat := MAGIC;
    for i := 0 to 8
      invariant ok ==> (Number(buf[0..8]) == MAGIC <==> Number(buf[i..8]) == rest)
      invariant !ok ==> Number(buf[0..8]) != MAGIC
      invariant rest < Pow256(8 - i)
    {
      assert buf[i..8][1..] == buf[i + 1..8];
      if buf[i] != rest % 256 { ok := false; }
      rest := rest / 256;
    }
    assert buf[..len][0..8] == buf[0..8];
  }
}
