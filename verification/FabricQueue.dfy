/** The fabric's message queue: one ring buffer that all channels share. */
module FabricQueue {
  import opened Bits
  import opened Fabric

  const CAP := 32 * 4096
  const MTU := 4096

  datatype Outcome = Moved(count: nat) | Empty | TooLong | Full

  // ---------- The byte sequence it stands for ----------

  /** What a send does to the queued bytes. An open channel has mtu MTU, a closed one 0. */
  function Sent(contents: seq<Byte>, bytes: seq<Byte>, mtu: nat): (Outcome, seq<Byte>) {
    if bytes == [] then (Empty, contents)
    else if |bytes| > mtu then (TooLong, contents)
    else if |contents| > 0 && |contents| + |bytes| > CAP then (Full, contents)
    else (Moved(|bytes|), contents + bytes)
  }

  function Taken(contents: seq<Byte>, want: nat): nat { if want < |contents| then want else |contents| }

  datatype Op = Send(bytes: seq<Byte>, mtu: nat) | Recv(want: nat)

  /** The queue together with everything ever accepted and everything ever handed out. */
  datatype History = History(contents: seq<Byte>, accepted: seq<Byte>, received: seq<Byte>)

  function Apply(h: History, op: Op): History {
    match op
    case Send(bytes, mtu) =>
      var (outcome, contents) := Sent(h.contents, bytes, mtu);
      History(contents, if outcome.Moved? then h.accepted + bytes else h.accepted, h.received)
    case Recv(want) =>
      var n := Taken(h.contents, want);
      History(h.contents[n..], h.accepted, h.received + h.contents[..n])
  }

  function Replay(ops: seq<Op>): History {
    if ops == [] then History([], [], []) else Apply(Replay(ops[..|ops| - 1]), ops[|ops| - 1])
  }

  /** Over any interleaving, what was received is what was sent, in order, and the rest is queued. */
  lemma {:induction false} ReceivedInOrder(ops: seq<Op>)
    requires forall i :: 0 <= i < |ops| && ops[i].Send? ==> ops[i].mtu <= MTU
    ensures var h := Replay(ops); h.received + h.contents == h.accepted && |h.contents| <= CAP
  {
    if ops != [] {
      ReceivedInOrder(ops[..|ops| - 1]);
      var h, op := Replay(ops[..|ops| - 1]), ops[|ops| - 1];
      if op.Send? {
        assert h.received + (h.contents + op.bytes) == h.accepted + op.bytes;
      } else {
        var n := Taken(h.contents, op.want);
        assert h.contents[..n] + h.contents[n..] == h.contents;
        assert h.received + h.contents[..n] + h.contents[n..] == h.received + (h.contents[..n] + h.contents[n..]);
      }
    }
  }

  // ---------- Positions in the ring ----------

  /** The n bytes from position h on, wrapping around. */
  function Ring(d: seq<Byte>, h: nat, n: nat): (r: seq<Byte>)
    requires |d| == CAP
    ensures |r| == n && forall i :: 0 <= i < n ==> r[i] == d[(h + i) % CAP]
  {
    seq(n, i requires 0 <= i < n => d[(h + i) % CAP])
  }

  lemma SlotsDiffer(h: nat, a: nat, b: nat)
    requires a < b < a + CAP
    ensures (h + a) % CAP != (h + b) % CAP
  {
  }

  lemma SlotSum(h: nat, n: nat, i: nat)
    ensures ((h + n) % CAP + i) % CAP == (h + (n + i)) % CAP
  {
  }

  lemma RingPut(d: seq<Byte>, h: nat, n: nat, v: Byte)
    requires |d| == CAP && n < CAP
    ensures Ring(d[(h + n) % CAP := v], h, n + 1) == Ring(d, h, n) + [v]
  {
    var e := d[(h + n) % CAP := v];
    forall i | 0 <= i < n ensures Ring(e, h, n)[i] == Ring(d, h, n)[i] { SlotsDiffer(h, i, n); }
  }

  lemma RingDrop(d: seq<Byte>, h: nat, n: nat, used: nat)
    requires |d| == CAP && n <= used
    ensures Ring(d, (h + n) % CAP, used - n) == Ring(d, h, used)[n..]
  {
    var r := Ring(d, h, used)[n..];
    forall i | 0 <= i < used - n ensures d[((h + n) % CAP + i) % CAP] == r[i] { SlotSum(h, n, i); }
  }

  /** The counters agree except that full and empty look the same. */
  lemma UsedFromPositions(head: nat, tail: nat, used: nat)
    requires head < CAP && tail < CAP && used <= CAP && tail == (head + used) % CAP
    ensures used == (tail - head) % CAP || (used == CAP && tail == head)
  {
  }

  lemma Extend(now: seq<Byte>, c: seq<Byte>, was: seq<Byte>, i: nat)
    requires i < |c| && i < |was| && now == (c[..i] + was[i..])[i := c[i]]
    ensures now == c[..i + 1] + was[i + 1..]
  {
  }

  class Messages {
    const data: array<Byte>
    const fabric: FabricState
    var head: nat
    var tail: nat
    var used: nat

    ghost predicate Valid()
      reads this
    {
      data.Length == CAP && head < CAP && tail < CAP && used <= CAP && tail == (head + used) % CAP
    }

    ghost function Contents(): (r: seq<Byte>)
      reads this, data
      requires Valid()
      ensures |r| == used
    {
      Ring(data[..], head, used)
    }

    constructor (fabric: FabricState)
      ensures Valid() && Contents() == [] && this.fabric == fabric && fresh(data)
    {
      this.fabric := fabric;
      data := new Byte[CAP](_ => 0);
      head, tail, used := 0, 0, 0;
    }

    /** The bytes go into the ring behind what is queued. */
    method Enqueue(src: array<Byte>, len: nat)
      requires Valid() && len <= src.Length && used + len <= CAP && src != data
      modifies this`tail, this`used, data
      ensures Valid() && Contents() == old(Contents()) + src[..len]
    {
      ghost var before := Contents();
      assert data.Length == CAP && before == Ring(data[..], head, used);
      hide Ring, Valid, Contents;
      for i := 0 to len
        invariant Valid() && used == old(used) && head == old(head) && tail == old(tail)
        invariant Ring(data[..], head, used + i) == before + src[..i]
      {
        AppendAt(i, src[i]);
        assert before + src[..i] + [src[i]] == before + src[..i + 1];
      }
      Grow(len);
    }

    /** One byte more, i places behind the tail. */
    method AppendAt(i: nat, v: Byte)
      requires Valid() && used + i < CAP
      modifies data
      ensures Valid() && data.Length == CAP
      ensures Ring(data[..], head, used + i + 1) == Ring(old(data[..]), head, used + i) + [v]
    {
      hide Ring;
      SlotSum(head, used, i);
      PutAt(used + i, (tail + i) % CAP, v);
    }

    /** The bytes behind the tail become part of the queue. */
    method Grow(len: nat)
      requires Valid() && used + len <= CAP
      modifies this`tail, this`used
      ensures Valid() && Contents() == Ring(data[..], head, old(used) + len)
    {
      hide Ring;
      SlotSum(head, used, len);
      tail := (tail + len) % CAP;
      used := used + len;
    }

    /** One byte more, at the n-th place from the head. */
    method PutAt(n: nat, pos: nat, v: Byte)
      requires Valid() && n < CAP && pos == (head + n) % CAP
      modifies data
      ensures Ring(data[..], head, n + 1) == Ring(old(data[..]), head, n) + [v]
    {
      hide Ring;
      RingPut(data[..], head, n, v);
      data[pos] := v;
      assert data[..] == old(data[..])[pos := v];
    }

    /**
      fabric_send: queue the bytes, and also store them at the start of the destination's bound
      memory when they fit there.
     */
    method Send(dst: nat, mtu: nat, src: array<Byte>, len: nat) returns (r: Outcome)
      requires Valid() && len <= src.Length && src != data && mtu <= MTU
      requires dst < |fabric.nodes| && fabric.nodes[dst].mem != data
      modifies this`tail, this`used, data, fabric`latency
      modifies if fabric.nodes[dst].mem != null then {fabric.nodes[dst].mem} else {}
      ensures Valid() && (r, Contents()) == Sent(old(Contents()), old(src[..len]), mtu)
      ensures fabric.latency == old(fabric.latency) + if r.Moved? then fabric.nodes[dst].latency else 0
      ensures var m := fabric.nodes[dst].mem;
              m != null ==> m[..] == if r.Moved? && Translates(fabric.nodes[dst], fabric.nodes[dst].base)
                                        && len <= m.Length
                                     then Blit(old(m[..]), 0, old(src[..len])) else old(m[..])
    {
      if len == 0 { return Empty; }
      if len > mtu { return TooLong; }
      if used > 0 && used + len > CAP { return Full; }
      Enqueue(src, len);
      var m := fabric.nodes[dst].mem;
      if Translates(fabric.nodes[dst], fabric.nodes[dst].base) && len <= m.Length {
        assert src[0..len] == src[..len];
        Move(m, 0, src, 0, len);
      }
      fabric.latency := fabric.latency + fabric.nodes[dst].latency;
      r := Moved(len);
    }

    /** The oldest n bytes, still queued. */
    method CopyOut(buf: array<Byte>, n: nat)
      requires Valid() && n <= buf.Length && n <= used && buf != data
      modifies buf
      ensures buf[..] == Contents()[..n] + old(buf[..])[n..]
    {
      hide Ring, Contents, Valid;
      ghost var c, was := Contents(), buf[..];
      for i := 0 to n
        invariant Valid() && Contents() == c && buf[..] == c[..i] + was[i..]
      {
        var v := Peek(i);
        buf[i] := v;
        Extend(buf[..], c, was, i);
      }
    }

    method Peek(i: nat) returns (v: Byte)
      requires Valid() && i < used
      ensures v == Contents()[i]
    {
      v := data[(head + i) % CAP];
    }

    method Drop(n: nat)
      requires Valid() && n <= used
      modifies this`head, this`used
      ensures Valid() && Contents() == old(Contents())[n..]
    {
      hide Ring;
      RingDrop(data[..], head, n, used);
      SlotSum(head, n, used - n);
      head := (head + n) % CAP;
      used := used - n;
    }

    /** fabric_recv: the oldest bytes, as many as are wanted and there. */
    method Recv(from: nat, buf: array<Byte>, want: nat) returns (n: nat)
      requires Valid() && want <= buf.Length && buf != data && from < |fabric.nodes|
      modifies this`head, this`used, buf, fabric`latency
      ensures Valid() && n == Taken(old(Contents()), want)
      ensures buf[..] == old(Contents())[..n] + old(buf[..])[n..] && Contents() == old(Contents())[n..]
      ensures fabric.latency == old(fabric.latency) + fabric.nodes[from].latency
    {
      hide Ring, Contents, Valid;
      n := if want < used then want else used;
      CopyOut(buf, n);
      Drop(n);
      fabric.latency := fabric.latency + fabric.nodes[from].latency;
    }
  }
}
