/** When two windows are kept apart, and what becomes of a message, in plain numbers. */
module FabricLaws {
  import opened Bits
  import opened Fabric
  import opened FabricQueue

  predicate Holds(n: Node, addr: nat) { n.base <= addr <= n.limit }

  /** An address in both windows. */
  ghost predicate Share(a: Node, b: Node) { exists addr :: Holds(a, addr) && Holds(b, addr) }

  lemma ShareIff(a: Node, b: Node)
    requires a.base <= a.limit && b.base <= b.limit
    ensures Share(a, b) <==> a.base <= b.limit && b.base <= a.limit
  {
    if a.base <= b.limit && b.base <= a.limit {
      var x := if a.base < b.base then b.base else a.base;
      assert Holds(a, x) && Holds(b, x);
    }
  }

  /**
    The end of a window is its limit plus one, which wraps for a window that reaches the top of
    the address space. The overlap test is right exactly when neither window does, or the two
    are apart.
   */
  lemma OverlapIff(a: Node, b: Node)
    requires a.base <= a.limit < 0x1_0000_0000_0000_0000 && b.base <= b.limit < 0x1_0000_0000_0000_0000
    ensures (Overlap(a, b) <==> Share(a, b))
            <==> (a.limit < 0xFFFF_FFFF_FFFF_FFFF && b.limit < 0xFFFF_FFFF_FFFF_FFFF) || a.limit < b.base || b.limit < a.base
  {
    ShareIff(a, b);
    hide Share;
  }

  /** So a window over the upper half of the address space can be registered twice. */
  method TopWindowTwice(fabric: FabricState)
    requires fabric.nodes == []
    modifies fabric
    ensures var n := Node(0x8000_0000_0000_0000, 0xFFFF_FFFF_FFFF_FFFF, 1, null);
            fabric.nodes == [n, n] && Share(n, n)
  {
    var first := fabric.RegisterNode(0x8000_0000_0000_0000, 0xFFFF_FFFF_FFFF_FFFF, 1);
    var second := fabric.RegisterNode(0x8000_0000_0000_0000, 0xFFFF_FFFF_FFFF_FFFF, 1);
    ShareIff(fabric.nodes[0], fabric.nodes[1]);
  }

  /** And no region inside such a window is ever accepted. */
  lemma TopWindowRefuses(n: Node, addr: nat, len: nat)
    requires n.limit == 0xFFFF_FFFF_FFFF_FFFF && 0 < len && addr + len < 0x1_0000_0000_0000_0000
    ensures !RegionValid(n, addr, len)
  {
  }

  /** A message is queued when it is not empty, no longer than its channel's limit, and fits 128 KiB. */
  lemma SentIff(contents: seq<Byte>, bytes: seq<Byte>, mtu: nat)
    requires mtu <= 4096
    ensures var (r, after) := Sent(contents, bytes, mtu);
            && (r.Moved? <==> 0 < |bytes| <= mtu && |contents| + |bytes| <= 131072)
            && (r.Moved? ==> r.count == |bytes| && after == contents + bytes)
            && (!r.Moved? ==> after == contents)
            && (r == Empty <==> |bytes| == 0) && (r == TooLong <==> |bytes| > mtu)
  {
  }

  /** As many bytes are handed out as are wanted and there. */
  lemma TakenIs(contents: seq<Byte>, want: nat)
    ensures Taken(contents, want) <= want && Taken(contents, want) <= |contents|
    ensures Taken(contents, want) == want || Taken(contents, want) == |contents|
  {
  }
}
