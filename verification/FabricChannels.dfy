/** What each channel gets, now that all channels share one queue. */
module FabricChannels {
  import opened Bits
  import opened FabricQueue

  /** A queued byte and the channel that sent it. */
  datatype Tagged = Tagged(from: nat, byte: Byte)

  datatype Delivery = Delivery(to: nat, what: Tagged)

  datatype Call = Call(channel: nat, op: Op)

  /** The queue, everything accepted, and everything handed out, with the channels concerned. */
  datatype Traffic = Traffic(queue: seq<Tagged>, sent: seq<Tagged>, got: seq<Delivery>)

  function Tag(channel: nat, bytes: seq<Byte>): (r: seq<Tagged>)
    ensures |r| == |bytes| && forall i :: 0 <= i < |r| ==> r[i] == Tagged(channel, bytes[i])
  {
    seq(|bytes|, i requires 0 <= i < |bytes| => Tagged(channel, bytes[i]))
  }

  function Untag(ts: seq<Tagged>): (r: seq<Byte>)
    ensures |r| == |ts| && forall i :: 0 <= i < |r| ==> r[i] == ts[i].byte
  {
    seq(|ts|, i requires 0 <= i < |ts| => ts[i].byte)
  }

  function Deliver(channel: nat, ts: seq<Tagged>): (r: seq<Delivery>)
    ensures |r| == |ts| && forall i :: 0 <= i < |r| ==> r[i] == Delivery(channel, ts[i])
  {
    seq(|ts|, i requires 0 <= i < |ts| => Delivery(channel, ts[i]))
  }

  function Do(t: Traffic, call: Call): Traffic {
    match call.op
    case Send(bytes, mtu) =>
      if Sent(Untag(t.queue), bytes, mtu).0.Moved?
      then Traffic(t.queue + Tag(call.channel, bytes), t.sent + Tag(call.channel, bytes), t.got)
      else t
    case Recv(want) =>
      var n := Taken(Untag(t.queue), want);
      Traffic(t.queue[n..], t.sent, t.got + Deliver(call.channel, t.queue[..n]))
  }

  function RunCalls(calls: seq<Call>): Traffic {
    if calls == [] then Traffic([], [], []) else Do(RunCalls(calls[..|calls| - 1]), calls[|calls| - 1])
  }

  /** The bytes that a channel sent, in order. */
  function SentOn(ts: seq<Tagged>, channel: nat): seq<Tagged> {
    if ts == [] then []
    else
      SentOn(ts[..|ts| - 1], channel) + if ts[|ts| - 1].from == channel then [ts[|ts| - 1]] else []
  }

  /** The bytes that a channel received, in order. */
  function GotOn(ds: seq<Delivery>, channel: nat): seq<Tagged> {
    if ds == [] then []
    else
      GotOn(ds[..|ds| - 1], channel) + if ds[|ds| - 1].to == channel then [ds[|ds| - 1].what] else []
  }

  /** Every channel has received its own bytes, in order, from the first one on. */
  ghost predicate OwnBytes(t: Traffic) {
    forall channel: nat :: GotOn(t.got, channel) <= SentOn(t.sent, channel)
  }

  /** A call that is about to hand out no other channel's bytes. */
  predicate Undisturbed(t: Traffic, call: Call) {
    call.op.Recv? ==>
      forall i :: 0 <= i < Taken(Untag(t.queue), call.op.want) ==> t.queue[i].from == call.channel
  }

  /** No receive finds another channel's bytes among those that it takes. */
  predicate AllUndisturbed(calls: seq<Call>) {
    calls == []
    || (AllUndisturbed(calls[..|calls| - 1]) && Undisturbed(RunCalls(calls[..|calls| - 1]), calls[|calls| - 1]))
  }

  // ---------- The queue underneath ----------

  function Ops(calls: seq<Call>): (r: seq<Op>)
    ensures |r| == |calls| && forall i :: 0 <= i < |r| ==> r[i] == calls[i].op
  {
    seq(|calls|, i requires 0 <= i < |calls| => calls[i].op)
  }

  /** Without the tags this is the shared queue. */
  lemma {:induction false} TrafficIsReplay(calls: seq<Call>)
    ensures Untag(RunCalls(calls).queue) == Replay(Ops(calls)).contents
    ensures Untag(RunCalls(calls).sent) == Replay(Ops(calls)).accepted
  {
    hide Do, Apply, Untag;
    if calls == [] {
      NothingUntagged();
    } else {
      var before, last := calls[..|calls| - 1], calls[|calls| - 1];
      TrafficIsReplay(before);
      assert Ops(calls)[..|calls| - 1] == Ops(before);
      DoIsApply(RunCalls(before), Replay(Ops(before)), last);
    }
  }

  lemma NothingUntagged()
    ensures Untag([]) == []
  {
  }

  lemma DoIsApply(t: Traffic, h: History, call: Call)
    requires Untag(t.queue) == h.contents && Untag(t.sent) == h.accepted
    ensures Untag(Do(t, call).queue) == Apply(h, call.op).contents
    ensures Untag(Do(t, call).sent) == Apply(h, call.op).accepted
  {
    if call.op.Recv? {
      var n := Taken(h.contents, call.op.want);
      assert Untag(t.queue[n..]) == Untag(t.queue)[n..];
    } else {
      var tags := Tag(call.channel, call.op.bytes);
      assert Untag(t.queue + tags) == Untag(t.queue) + call.op.bytes;
      assert Untag(t.sent + tags) == Untag(t.sent) + call.op.bytes;
    }
  }

  // ---------- Deliveries ----------

  function Whats(ds: seq<Delivery>): (r: seq<Tagged>)
    ensures |r| == |ds| && forall i :: 0 <= i < |r| ==> r[i] == ds[i].what
  {
    seq(|ds|, i requires 0 <= i < |ds| => ds[i].what)
  }

  /** Deliveries and what is queued are what was accepted, in order. */
  predicate Ordered(t: Traffic) { Whats(t.got) + t.queue == t.sent }

  lemma {:induction false} InOrder(calls: seq<Call>)
    ensures Ordered(RunCalls(calls))
  {
    if calls != [] {
      hide Do, Ordered;
      InOrder(calls[..|calls| - 1]);
      DoKeepsOrder(RunCalls(calls[..|calls| - 1]), calls[|calls| - 1]);
    }
  }

  lemma DoKeepsOrder(t: Traffic, call: Call)
    requires Ordered(t)
    ensures Ordered(Do(t, call))
  {
    if call.op.Recv? {
      var n := Taken(Untag(t.queue), call.op.want);
      assert Whats(t.got + Deliver(call.channel, t.queue[..n])) == Whats(t.got) + t.queue[..n];
      assert t.queue[..n] + t.queue[n..] == t.queue;
    } else {
      var tags := Tag(call.channel, call.op.bytes);
      assert Whats(t.got) + (t.queue + tags) == Whats(t.got) + t.queue + tags;
    }
  }

  predicate AllOwn(ds: seq<Delivery>) { forall i :: 0 <= i < |ds| ==> ds[i].to == ds[i].what.from }

  /** The run is undisturbed exactly when every delivery went to the channel that had sent the byte. */
  lemma {:induction false} UndisturbedIsOwn(calls: seq<Call>)
    ensures AllUndisturbed(calls) <==> AllOwn(RunCalls(calls).got)
  {
    if calls != [] {
      var before, last := calls[..|calls| - 1], calls[|calls| - 1];
      UndisturbedIsOwn(before);
      var t := RunCalls(before);
      if last.op.Recv? {
        var n := Taken(Untag(t.queue), last.op.want);
        OwnAppended(t.got, Deliver(last.channel, t.queue[..n]));
        var ds := Deliver(last.channel, t.queue[..n]);
        assert AllOwn(ds) <==> Undisturbed(t, last) by {
          assert forall i :: 0 <= i < n ==> (ds[i].to == ds[i].what.from <==> t.queue[i].from == last.channel);
        }
      }
    }
  }

  lemma OwnAppended(ds: seq<Delivery>, es: seq<Delivery>)
    ensures AllOwn(ds + es) <==> AllOwn(ds) && AllOwn(es)
  {
    if AllOwn(ds + es) {
      forall i | 0 <= i < |ds| ensures ds[i].to == ds[i].what.from { assert (ds + es)[i] == ds[i]; }
      forall i | 0 <= i < |es| ensures es[i].to == es[i].what.from { assert (ds + es)[|ds| + i] == es[i]; }
    }
  }

  /** With deliveries to their senders only, a channel got exactly what it sent among them. */
  lemma {:induction false} GotIsSent(ds: seq<Delivery>, channel: nat)
    requires AllOwn(ds)
    ensures GotOn(ds, channel) == SentOn(Whats(ds), channel)
  {
    if ds != [] {
      GotIsSent(ds[..|ds| - 1], channel);
      assert Whats(ds)[..|ds| - 1] == Whats(ds[..|ds| - 1]);
    }
  }

  lemma {:induction false} SentOnPrefix(ts: seq<Tagged>, us: seq<Tagged>, channel: nat)
    ensures SentOn(ts, channel) <= SentOn(ts + us, channel)
  {
    if us == [] {
      assert ts + us == ts;
    } else {
      SentOnPrefix(ts, us[..|us| - 1], channel);
      assert (ts + us)[..|ts + us| - 1] == ts + us[..|us| - 1];
    }
  }

  lemma {:induction false} SentOnTags(ts: seq<Tagged>, channel: nat)
    ensures forall i :: 0 <= i < |SentOn(ts, channel)| ==> SentOn(ts, channel)[i].from == channel
  {
    if ts != [] { SentOnTags(ts[..|ts| - 1], channel); }
  }

  /** A byte that was delivered to a channel is among those it got. */
  lemma {:induction false} DeliveredIsGot(ds: seq<Delivery>, i: nat)
    requires i < |ds|
    ensures ds[i].what in GotOn(ds, ds[i].to)
  {
    if i < |ds| - 1 {
      DeliveredIsGot(ds[..|ds| - 1], i);
    }
  }

  /**
    Every channel receives exactly its own bytes, in order, if and only if no receive takes a byte
    that another channel had queued: each finds the bytes it is about to take to be its own.
   */
  lemma OwnBytesIff(calls: seq<Call>)
    ensures OwnBytes(RunCalls(calls)) <==> AllUndisturbed(calls)
  {
    hide RunCalls, AllUndisturbed;
    var t := RunCalls(calls);
    UndisturbedIsOwn(calls);
    InOrder(calls);
    if AllOwn(t.got) {
      forall channel: nat ensures GotOn(t.got, channel) <= SentOn(t.sent, channel) {
        GotIsSent(t.got, channel);
        SentOnPrefix(Whats(t.got), t.queue, channel);
      }
    } else {
      var i :| 0 <= i < |t.got| && t.got[i].to != t.got[i].what.from;
      var channel := t.got[i].to;
      DeliveredIsGot(t.got, i);
      SentOnTags(t.sent, channel);
      NoPrefix(GotOn(t.got, channel), SentOn(t.sent, channel), t.got[i].what);
    }
  }

  lemma NoPrefix(gs: seq<Tagged>, ss: seq<Tagged>, x: Tagged)
    requires x in gs && forall i :: 0 <= i < |ss| ==> ss[i].from != x.from
    ensures !(gs <= ss)
  {
    var k :| 0 <= k < |gs| && gs[k] == x;
    if |gs| <= |ss| { assert gs[k] != ss[k] && ss[..|gs|][k] == ss[k]; }
  }

  const FOREIGN: seq<Call> := [Call(0, Send([7], MTU)), Call(1, Recv(1))]

  /** Channel 1 receives the byte that channel 0 has sent. */
  lemma ForeignByteReceived()
    ensures GotOn(RunCalls(FOREIGN).got, 1) == [Tagged(0, 7)] && SentOn(RunCalls(FOREIGN).sent, 1) == []
    ensures !OwnBytes(RunCalls(FOREIGN))
  {
    ForeignTraffic();
    hide RunCalls, FOREIGN;
    var got, sent := [Delivery(1, Tagged(0, 7))], [Tagged(0, 7)];
    assert got[..0] == [] && sent[..0] == [];
    assert !(GotOn(got, 1) <= SentOn(sent, 1));
  }

  lemma ForeignTraffic()
    ensures RunCalls(FOREIGN) == Traffic([], [Tagged(0, 7)], [Delivery(1, Tagged(0, 7))])
  {
    hide Do;
    assert FOREIGN[..1] == [FOREIGN[0]] && [FOREIGN[0]][..0] == [];
    assert RunCalls([]) == Traffic([], [], []);
    assert RunCalls([FOREIGN[0]]) == Do(RunCalls([FOREIGN[0]][..0]), FOREIGN[0]);
    FirstSend();
    ThenRecv();
  }

  lemma FirstSend()
    ensures Do(Traffic([], [], []), Call(0, Send([7], MTU))) == Traffic([Tagged(0, 7)], [Tagged(0, 7)], [])
  {
    assert Tag(0, [7]) == [Tagged(0, 7)] && Untag([]) == [];
  }

  lemma ThenRecv()
    ensures Do(Traffic([Tagged(0, 7)], [Tagged(0, 7)], []), Call(1, Recv(1)))
            == Traffic([], [Tagged(0, 7)], [Delivery(1, Tagged(0, 7))])
  {
    var q := [Tagged(0, 7)];
    assert |Untag(q)| == 1 && q[..1] == q && q[1..] == [];
    assert Deliver(1, q) == [Delivery(1, Tagged(0, 7))];
  }
}
