/**
  The mesh interconnect: registered address windows, memories bound to them, and DMA between
  windows. Addresses are 64-bit and every test wraps as in the source.
 */
module Fabric {
  import opened Bits

  const MAX_NODES := 64

  /** A node's window [base, limit], its latency and the memory behind it, if any. */
  datatype Node = Node(base: nat, limit: nat, latency: nat, mem: array?<Byte>)

  datatype Channel = Channel(src: nat, dst: nat, dma: bool)

  datatype Status = Done(value: int) | Invalid | NoSpace | AddressInUse | NotPermitted | BadAddress | NoDevice

  predicate Overlap(a: Node, b: Node) {
    a.base < (b.limit + 1) % TWO_64 && b.base < (a.limit + 1) % TWO_64
  }

  predicate RegionValid(n: Node, addr: nat, len: nat) {
    addr >= n.base && (addr + len) % TWO_64 <= (n.limit + 1) % TWO_64
  }

  /** A window that does not wrap, with no memory or with memory behind all of it. */
  predicate Covered(n: Node) {
    n.base <= n.limit < TWO_64 - 1 && (n.mem != null ==> n.mem.Length == n.limit + 1 - n.base)
  }

  predicate Inside(n: Node, addr: nat, len: nat) {
    n.base <= addr && addr + len <= n.limit + 1
  }

  /** fabric_translate finds memory behind the address. */
  predicate Translates(n: Node, addr: nat) {
    n.mem != null && n.base <= addr < (n.base + n.mem.Length) % TWO_64
  }

  /** Bytes from the address on that lie in the memory behind it, if there is any. */
  predicate InMemory(n: Node, addr: nat, len: nat) {
    Translates(n, addr) ==> addr - n.base + len <= n.mem.Length
  }

  /** On such a window the test accepts exactly the regions inside it, and those translate as a whole. */
  lemma RegionTranslates(n: Node, addr: nat, len: nat)
    requires Covered(n) && 0 < len && addr + len < TWO_64
    ensures RegionValid(n, addr, len) <==> Inside(n, addr, len)
    ensures RegionValid(n, addr, len) && n.mem != null ==> Translates(n, addr) && InMemory(n, addr, len)
  {
  }

  /** For any region at all, the test is right exactly when a sum that wraps does not end in the window. */
  lemma RegionTestIff(n: Node, addr: nat, len: nat)
    requires Covered(n) && 0 < len < TWO_64 && addr < TWO_64
    ensures (RegionValid(n, addr, len) <==> Inside(n, addr, len))
            <==> addr < n.base || addr + len < TWO_64 || addr + len - TWO_64 > n.limit + 1
  {
  }

  /** A region of nearly 2^64 bytes passes the test of a window of 100. */
  lemma RegionTestMisses()
    ensures var n := Node(0, 99, 0, null);
            Covered(n) && RegionValid(n, 50, TWO_64 - 10) && !Inside(n, 50, TWO_64 - 10)
  {
  }

  /** Of the regions that do not wrap, one that is accepted and has memory behind it stays in that memory. */
  predicate Stays(n: Node, addr: nat, len: nat) {
    0 < len && addr + len < TWO_64 && RegionValid(n, addr, len) ==> InMemory(n, addr, len)
  }

  /** The test looks at the window alone: that holds of all regions exactly when the memory fills the window. */
  lemma StaysIff(n: Node)
    requires n.base <= n.limit < TWO_64 - 1 && n.mem != null && 0 < n.mem.Length <= n.limit + 1 - n.base
    ensures (forall addr: nat, len: nat :: Stays(n, addr, len)) <==> n.mem.Length == n.limit + 1 - n.base
  {
    if n.mem.Length < n.limit + 1 - n.base {
      assert !Stays(n, n.base + n.mem.Length - 1, 2);
    }
  }

  /** A memory of 50 bytes can be bound to a window of 100, where a region of 20 from 40 on is then accepted. */
  method ShortMemory(fabric: FabricState, mem: array<Byte>)
    requires fabric.nodes == [Node(0, 99, 0, null)] && mem.Length == 50
    modifies fabric
    ensures fabric.nodes == [Node(0, 99, 0, mem)]
    ensures RegionValid(fabric.nodes[0], 40, 20) && !InMemory(fabric.nodes[0], 40, 20)
  {
    var bound := fabric.BindMemory(0, mem);
  }

  /** The low 32 bits as a signed number, which is what a length comes back as. */
  function AsInt(n: nat): int { if n % WORD < 0x8000_0000 then n % WORD else n % WORD - WORD }

  /** The result of a transfer is its length exactly for lengths below 2^31. */
  lemma AsIntIff(n: nat)
    ensures AsInt(n) == n <==> n < 0x8000_0000
    ensures AsInt(0x8000_0000) < 0
  {
  }

  class FabricState {
    var nodes: seq<Node>
    var dmaBytes: Word
    var latency: nat

    constructor ()
      ensures nodes == [] && dmaBytes == 0 && latency == 0
    {
      nodes, dmaBytes, latency := [], 0, 0;
    }

    /** fabric_init: every registration and binding is forgotten. */
    method Reset()
      modifies this
      ensures nodes == [] && dmaBytes == 0 && latency == 0
    {
      nodes, dmaBytes, latency := [], 0, 0;
    }

    /** Register a window; it must not overlap a registered one. On success the status carries the node's id. */
    method RegisterNode(base: nat, limit: nat, lat: nat) returns (r: Status)
      requires base < TWO_64 && limit < TWO_64
      modifies this`nodes
      ensures var n := Node(base, limit, lat, null);
              if |old(nodes)| >= 64 then r == NoSpace && nodes == old(nodes)
              else if exists i :: 0 <= i < |old(nodes)| && Overlap(n, old(nodes)[i])
              then r == AddressInUse && nodes == old(nodes)
              else r == Done(|old(nodes)|) && nodes == old(nodes) + [n]
    {
      if |nodes| >= MAX_NODES {
        return NoSpace;
      }
      var n := Node(base, limit, lat, null);
      for i := 0 to |nodes|
        invariant forall j :: 0 <= j < i ==> !Overlap(n, nodes[j])
      {
        if Overlap(n, nodes[i]) {
          return AddressInUse;
        }
      }
      r := Done(|nodes|);
      nodes := nodes + [n];
    }

    method BindMemory(id: nat, mem: array<Byte>) returns (r: Status)
      modifies this`nodes
      ensures r == Done(0) || r == Invalid
      ensures r == Done(0) <==> id < |old(nodes)| && 0 < mem.Length
                                && mem.Length <= (old(nodes)[id].limit - old(nodes)[id].base + 1) % TWO_64
      ensures nodes == if r == Done(0) then old(nodes)[id := old(nodes)[id].(mem := mem)] else old(nodes)
    {
      if id >= |nodes| || mem.Length == 0 {
        return Invalid;
      }
      if mem.Length > (nodes[id].limit - nodes[id].base + 1) % TWO_64 {
        return Invalid;
      }
      nodes := nodes[id := nodes[id].(mem := mem)];
      return Done(0);
    }

    /** `known` says that the flags have no bit the fabric does not know. */
    method ChannelOpen(src: nat, dst: nat, dma: bool, known: bool) returns (r: Status, ch: Channel)
      ensures r == if src >= |nodes| || dst >= |nodes| then NoDevice else if !known then Invalid else Done(0)
      ensures r.Done? ==> ch == Channel(src, dst, dma)
    {
      if src >= |nodes| || dst >= |nodes| {
        return NoDevice, Channel(0, 0, false);
      }
      if !known {
        return Invalid, Channel(0, 0, false);
      }
      return Done(0), Channel(src, dst, dma);
    }

    predicate Accepts(ch: Channel, srcAddr: nat, dstAddr: nat, len: nat)
      reads this
      requires ch.src < |nodes| && ch.dst < |nodes|
    {
      RegionValid(nodes[ch.src], srcAddr, len) && RegionValid(nodes[ch.dst], dstAddr, len)
    }

    /**
      Move bytes between two windows. The region tests decide the outcome alone; bytes are moved
      when both addresses have memory behind them, and the caller answers for accepted regions
      that run past the end of a memory.
     */
    method Dma(ch: Channel, srcAddr: nat, dstAddr: nat, len: nat) returns (r: Status)
      requires ch.src < |nodes| && ch.dst < |nodes| && srcAddr < TWO_64 && dstAddr < TWO_64 && len < TWO_64
      requires Accepts(ch, srcAddr, dstAddr, len) && Translates(nodes[ch.src], srcAddr)
               && Translates(nodes[ch.dst], dstAddr) ==>
                 InMemory(nodes[ch.src], srcAddr, len) && InMemory(nodes[ch.dst], dstAddr, len)
      modifies this`dmaBytes, this`latency, if nodes[ch.dst].mem != null then {nodes[ch.dst].mem} else {}
      ensures r == if len == 0 then Invalid
                   else if !ch.dma then NotPermitted
                   else if Accepts(ch, srcAddr, dstAddr, len) then Done(AsInt(len)) else BadAddress
      ensures dmaBytes == if r.Done? then (old(dmaBytes) + len) % WORD else old(dmaBytes)
      ensures latency == old(latency) + if r.Done? then nodes[ch.src].latency + nodes[ch.dst].latency else 0
      ensures var s, d := nodes[ch.src], nodes[ch.dst];
              d.mem != null ==>
                d.mem[..] == if r.Done? && Translates(s, srcAddr) && Translates(d, dstAddr)
                             then Blit(old(d.mem[..]), dstAddr - d.base,
                                       old(s.mem[..])[srcAddr - s.base..srcAddr - s.base + len])
                             else old(d.mem[..])
    {
      if len == 0 {
        return Invalid;
      }
      if !ch.dma {
        return NotPermitted;
      }
      var s, d := nodes[ch.src], nodes[ch.dst];
      if !RegionValid(s, srcAddr, len) || !RegionValid(d, dstAddr, len) {
        return BadAddress;
      }
      if Translates(s, srcAddr) && Translates(d, dstAddr) {
        Move(d.mem, dstAddr - d.base, s.mem, srcAddr - s.base, len);
      }
      dmaBytes := (dmaBytes + len) % WORD;
      latency := latency + s.latency + d.latency;
      return Done(AsInt(len));
    }
  }

  /** memmove between two memories, or within one. */
  method Move(dst: array<Byte>, at: nat, src: array<Byte>, from: nat, len: nat)
    requires at + len <= dst.Length && from + len <= src.Length
    modifies dst
    ensures dst[..] == Blit(old(dst[..]), at, old(src[..])[from..from + len])
  {
    forall i | 0 <= i < len {
      dst[at + i] := src[from + i];
    }
  }
}
