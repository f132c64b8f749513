/**
 The end-to-end return path: a guest's request to an outside address goes out through the
 WAN, and the reply comes back to that guest's port exactly once, whatever else happens and
 however the calls of the switch interleave.
 */
module ReturnPath {
  import opened Bytes
  import opened Frame
  import opened Arp
  import opened Ipv4
  import opened Router
  import opened Network
  import Nat
  import SC = SwitchConcurrency
  import Wan

  datatype Enqueued = Enqueued(port: nat, pkt: EthernetPacket)

  /** The enqueues of the calls that router message `idx` caused. */
  function CausedBy(s: Net, log: seq<(nat, nat)>, idx: nat): (r: seq<Enqueued>)
  {
    if log == [] then []
    else
      var (k, port) := log[|log| - 1];
      var rest := CausedBy(s, log[..|log| - 1], idx);
      if k < |s.causes| && k < |s.sw.callers| && s.causes[k] == Some(idx)
      then rest + [Enqueued(port, s.sw.callers[k].pkt)]
      else rest
  }

  function Enqueues(s: Net, idx: nat): (r: seq<Enqueued>)
  {
    CausedBy(s, s.sw.log, idx)
  }

  function AllTo(ports: seq<nat>, pkt: EthernetPacket): (r: seq<Enqueued>)
  {
    if ports == [] then [] else AllTo(ports[..|ports| - 1], pkt) + [Enqueued(ports[|ports| - 1], pkt)]
  }

  /** The calls that message `idx` caused have ended. */
  predicate CallEnded(s: Net, idx: nat)
  {
    forall k :: 0 <= k < |s.causes| && k < |s.sw.callers| && s.causes[k] == Some(idx) ==> s.sw.callers[k].pc.Done?
  }

  lemma {:induction false} CausedByCall(s: Net, log: seq<(nat, nat)>, idx: nat, k: nat)
    requires k < |s.causes| && k < |s.sw.callers| && s.causes[k] == Some(idx)
    requires forall l :: 0 <= l < |s.causes| && s.causes[l] == Some(idx) ==> l == k
    ensures CausedBy(s, log, idx) == AllTo(SC.Enqueued(log, k), s.sw.callers[k].pkt)
  {
    if log != [] {
      var n := |log| - 1;
      CausedByCall(s, log[..n], idx, k);
      var sent := SC.Enqueued(log[..n], k);
      assert (sent + [log[n].1])[..|sent|] == sent;
    }
  }

  //
  // Runs of the bridge are runs of the switch
  //

  lemma RunSnoc(s: SC.State, actions: seq<SC.Action>, a: SC.Action)
    ensures SC.Run(s, actions + [a]) == SC.Next(SC.Run(s, actions), a)
  {
    assert (actions + [a])[..|actions|] == actions;
  }

  lemma EventIsStep(cfg: Config, s: Net, e: Event) returns (a: Option<SC.Action>)
    ensures Next(cfg, s, e).sw == if a.Some? then SC.Next(s.sw, a.value) else s.sw
  {
    hide SC.Next, SendNext, Receive, HandleMsg;
    match e
    case Connect => a := Some(SC.Connect);
    case Call(port, bytes) => a := Some(SC.Start(port, bytes));
    case SwitchStep(call) => a := Some(SC.Step(call));
    case RouterStep(env) =>
      a := None;
      if RouterCanStep(s) {
        var action := HandleMsg(cfg, s.arp, s.inbox[s.handled], env).action;
        if action.ToSwitch? {
          a := Some(SC.Start(cfg.port, action.bytes));
        }
      }
    case WanSend => a := None; WanLeavesSwitch(cfg, s, e);
    case WanReceive(bytes) => a := None; WanLeavesSwitch(cfg, s, e);
  }

  lemma WanLeavesSwitch(cfg: Config, s: Net, e: Event)
    requires e.WanSend? || e.WanReceive?
    ensures var t := Next(cfg, s, e);
            t.sw == s.sw && t.causes == s.causes && t.handled == s.handled && t.arp == s.arp
            && t.routerAlive == s.routerAlive
  {
  }

  lemma {:induction false} RunOfSwitch(cfg: Config, s: Net, events: seq<Event>) returns (actions: seq<SC.Action>)
    ensures Exec(cfg, s, events).sw == SC.Run(s.sw, actions)
  {
    hide Next, SC.Next;
    if events == [] {
      actions := [];
    } else {
      var n := |events| - 1;
      actions := RunOfSwitch(cfg, s, events[..n]);
      var a := EventIsStep(cfg, Exec(cfg, s, events[..n]), events[n]);
      if a.Some? {
        RunSnoc(s.sw, actions, a.value);
        actions := actions + [a.value];
      }
    }
  }

  /** `SC.SettledDelivers` in a run of the bridge. */
  lemma SettledInRun(cfg: Config, s: Net, events: seq<Event>, t: Net, c: nat, m: Mac, p: nat, k: nat)
    requires Inv(cfg, s) && t == Exec(cfg, s, events) && m != BROADCAST
    requires c < |s.sw.learns| && SC.StaysLearned(t.sw.learns, c, m, p)
    requires |s.sw.callers| <= k < |t.sw.callers| && t.sw.callers[k].pkt.frame.dst == m && t.sw.callers[k].pc.Done?
    ensures t.sw.callers[k].sent == [p] && SC.Enqueued(t.sw.log, k) == [p]
  {
    var actions := RunOfSwitch(cfg, s, events);
    SC.SettledDelivers(s.sw, actions, t.sw, c, m, p, k);
  }

  //
  // From the WAN to the host
  //

  /**
   Once the router has handled a WAN packet for a host and the call it made has ended, that
   packet has been enqueued exactly once, on the host's port, provided that its address was
   bound to its MAC and the MAC settled on its port before and does not move until then.
   */
  lemma MessageIsDelivered(cfg: Config, s: Net, events: seq<Event>, t: Net, idx: nat, q: Packet,
                           m: Mac, p: nat, i: nat, c: nat)
    requires Inv(cfg, s) && s.handled <= idx < |s.inbox| && s.inbox[idx] == FromWan4(q)
    requires HostAddress(cfg, q.header.dst) && m != BROADCAST
    requires t == Exec(cfg, s, events) && idx < t.handled && CallEnded(t, idx)
    requires idx < |t.inbox| && StaysBound(t.inbox[..idx], i, V4(q.header.dst), m)
    requires SC.StaysLearned(t.sw.learns, c, m, p) && c < |s.sw.learns|
    ensures Enqueues(t, idx) == [Enqueued(p, ToHost(cfg, m, q.data))]
  {
    EveryRunKeeps(cfg, s, events);
    ArpIsLatest(t.inbox[..idx], i, V4(q.header.dst), m);
    var k := CallOfMessage(cfg, t, idx, q, m);
    LaterCall(cfg, s, t, idx, k);
    SettledInRun(cfg, s, events, t, c, m, p, k);
    CausedByCall(t, t.sw.log, idx, k);
  }

  lemma CallOfMessage(cfg: Config, t: Net, idx: nat, q: Packet, m: Mac) returns (k: nat)
    requires RouterSide(cfg, t) && |t.causes| == |t.sw.callers| && idx < t.handled && t.inbox[idx] == FromWan4(q)
    requires HostAddress(cfg, q.header.dst) && Get(ArpAfter(t.inbox[..idx]), V4(q.header.dst)) == Some(m)
    ensures k < |t.sw.callers| && k < |t.causes| && t.causes[k] == Some(idx)
    ensures t.sw.callers[k].pkt == ToHost(cfg, m, q.data)
    ensures forall l :: 0 <= l < |t.causes| && t.causes[l] == Some(idx) ==> l == k
  {
    hide HandleMsg, ExtractFrame;
    assert CallAt(cfg, t, idx);
    var f := ToHost(cfg, m, q.data);
    assert HostFrame(cfg, ArpAfter(t.inbox[..idx]), t.inbox[idx]) == Some(f);
    HandlingFrames(cfg, ArpAfter(t.inbox[..idx]), t.inbox[idx], t.envs[idx]);
    PrintThenExtract(f);
    k :| 0 <= k < |t.causes| && IsCall(cfg, t, idx, f, k);
  }

  /** The call of a message that was still to be handled has started since. */
  lemma LaterCall(cfg: Config, s: Net, t: Net, idx: nat, k: nat)
    requires Inv(cfg, s) && Grows(s, t) && s.handled <= idx && k < |t.causes| && t.causes[k] == Some(idx)
    ensures |s.sw.callers| <= k
  {
  }

  //
  // From the host to the WAN
  //

  /** The request is entry `w` of what the WAN was handed, and the only one with its cause. */
  ghost predicate ForwardedOnce(toWan: seq<(nat, Packet)>, idx: nat, rq: Packet, w: nat)
  {
    w < |toWan| && toWan[w] == (idx, rq) && forall k :: 0 <= k < |toWan| && toWan[k].0 == idx ==> k == w
  }

  lemma {:induction false} ForwardsBelow(cfg: Config, msgs: seq<Msg>)
    ensures forall k :: 0 <= k < |Forwards(cfg, msgs)| ==> Forwards(cfg, msgs)[k].0 < |msgs|
  {
    if msgs != [] {
      ForwardsBelow(cfg, msgs[..|msgs| - 1]);
    }
  }

  /** A message to forward is forwarded once. */
  lemma {:induction false} RequestIsForwarded(cfg: Config, msgs: seq<Msg>, idx: nat, rq: Packet) returns (w: nat)
    requires idx < |msgs| && Forwarded(cfg, msgs[idx]) == Some(rq)
    ensures ForwardedOnce(Forwards(cfg, msgs), idx, rq, w)
  {
    var n := |msgs| - 1;
    ForwardsBelow(cfg, msgs[..n]);
    if idx < n {
      w := RequestIsForwarded(cfg, msgs[..n], idx, rq);
    } else {
      w := |Forwards(cfg, msgs[..n])|;
    }
  }

  /** Call `k` has brought the router exactly one message, at `idx`. */
  ghost predicate BroughtOnce(s: Net, k: nat, idx: nat)
  {
    idx < |s.origins| && s.origins[idx] == Some(k)
    && forall j :: 0 <= j < |s.origins| && s.origins[j] == Some(k) ==> j == idx
  }

  lemma CountedTwice<T>(q: seq<T>, a: nat, b: nat)
    requires a < b < |q| && q[a] == q[b]
    ensures multiset(q)[q[a]] >= 2
  {
    assert q == q[..a] + [q[a]] + q[a + 1..b] + [q[b]] + q[b + 1..];
  }

  lemma CountedOnce<T>(q: seq<T>, x: T) returns (i: nat)
    requires multiset(q)[x] == 1
    ensures i < |q| && q[i] == x && forall j :: 0 <= j < |q| && q[j] == x ==> j == i
  {
    assert x in multiset(q);
    i :| 0 <= i < |q| && q[i] == x;
    forall j | 0 <= j < |q| && q[j] == x ensures j == i {
      if i < j {
        CountedTwice(q, i, j);
      } else if j < i {
        CountedTwice(q, j, i);
      }
    }
  }

  /**
   A call with a frame to the router's MAC, once it has ended, has brought the router that
   frame exactly once, provided that MAC had settled on the router's port before.
   */
  lemma FrameReachesRouter(cfg: Config, s: Net, events: seq<Event>, t: Net, k: nat, pkt: EthernetPacket, c: nat)
    returns (idx: nat)
    requires Inv(cfg, s) && t == Exec(cfg, s, events) && cfg.mac != BROADCAST
    requires |s.sw.callers| <= k < |t.sw.callers| && t.sw.callers[k].pkt == pkt && pkt.frame.dst == cfg.mac
    requires c < |s.sw.learns| && SC.StaysLearned(t.sw.learns, c, cfg.mac, cfg.port)
    requires t.sw.callers[k].pc.Done?
    ensures BroughtOnce(t, k, idx) && idx < |t.inbox| && t.inbox[idx] == FromLan(pkt)
  {
    EveryRunKeeps(cfg, s, events);
    SettledInRun(cfg, s, events, t, c, cfg.mac, cfg.port, k);
    assert multiset(t.origins)[Some(k)] == multiset([cfg.port])[cfg.port];
    idx := CountedOnce(t.origins, Some(k));
    assert BroughtBy(t, idx, k);
  }

  //
  // There and back
  //

  /**
   Only replies reach the router from the WAN: a completed packet that answers no packet sent before
   changes nothing there, and another one brings it that packet, addressed to the source of the latest
   packet it answers.
   */
  lemma OnlyRepliesEnter(cfg: Config, s: Net, bytes: seq<u8>, p: Packet, sent: seq<Packet>, t: Net)
    requires WanSide(cfg, s) && sent == Packets(s.toWan, s.sent) && t == Next(cfg, s, WanReceive(bytes))
    requires Wan.Completes(s.wan, bytes, p)
    ensures (forall w :: 0 <= w < |sent| ==> !Nat.IsReplyTo(p, sent[w])) ==> t.inbox == s.inbox
    ensures forall w :: 0 <= w < |sent| && Wan.AnswersLast(sent, w, p) ==>
              if Editable(p) then EntersFor(p, s.inbox, t.inbox, sent[w].header.src) && t.wan.alive
              else t.inbox == s.inbox && !t.wan.alive
  {
    hide Next, Wan.Inbound, Wan.Completes, Rewritten, Wan.AnswersLast, Nat.IsReplyTo, Nat.After, Editable, WanSide;
    CompletesAlive(s.wan, bytes, p);
    WhatReceiveBrings(cfg, s, bytes, t);
    TableOfSent(cfg, s, sent);
    Wan.OnlyRepliesPass(s.wan, sent, bytes, p);
  }

  lemma TableOfSent(cfg: Config, s: Net, sent: seq<Packet>)
    requires WanSide(cfg, s) && sent == Packets(s.toWan, s.sent)
    ensures s.wan.table == Nat.After(sent)
  {
    hide Nat.After, Masqueraded;
  }

  lemma WhatReceiveBrings(cfg: Config, s: Net, bytes: seq<u8>, t: Net)
    requires s.wan.alive && t == Next(cfg, s, WanReceive(bytes))
    ensures t.wan == Wan.Inbound(s.wan, bytes).0
    ensures match Wan.Inbound(s.wan, bytes).1
            case Some(q) =>
              |t.inbox| == |s.inbox| + 1 && t.inbox[..|s.inbox|] == s.inbox && t.inbox[|s.inbox|] == FromWan4(q)
            case None => t.inbox == s.inbox
  {
    hide Wan.Inbound;
  }

  /** One more message, with the reply `p` on its way to `to`. */
  ghost predicate EntersFor(p: Packet, before: seq<Msg>, after: seq<Msg>, to: u32)
  {
    && |after| == |before| + 1 && after[..|before|] == before
    && after[|before|].FromWan4? && Wan.SentBackTo(p, after[|before|].ip, to)
  }

  lemma CompletesAlive(s: Wan.WanState, bytes: seq<u8>, p: Packet)
    requires Wan.Completes(s, bytes, p)
    ensures s.alive
  {
  }

  /** A completed reply with a known key leaves the WAN device rewritten. */
  lemma ReplyIsRewritten(w: Wan.WanState, bytes: seq<u8>, r: Packet, a: u32)
    requires Wan.Completes(w, bytes, r) && Editable(r) && Nat.Lookup(w.table, r) == Some(a)
    ensures Wan.Inbound(w, bytes).1 == Some(Unmasquerade(r, a))
  {
    hide Readdress, Parse, Wan.Reassemble, Editable;
  }

  lemma ReplyIsRouted(cfg: Config, s: Net, bytes: seq<u8>, t: Net, r: Packet, a: u32, q: Packet)
    requires Inv(cfg, s) && t == Next(cfg, s, WanReceive(bytes))
    requires Wan.Completes(s.wan, bytes, r) && Editable(r) && Nat.Lookup(s.wan.table, r) == Some(a)
    requires q == Unmasquerade(r, a)
    ensures Inv(cfg, t) && t == s.(wan := t.wan, inbox := s.inbox + [FromWan4(q)], origins := s.origins + [None])
    ensures q.header.dst == a
  {
    hide Readdress, Parse, Nat.Lookup, Inv, Wan.Reassemble, Wan.Inbound, Editable;
    NextKeeps(cfg, s, WanReceive(bytes));
    ReplyIsRewritten(s.wan, bytes, r, a);
  }

  /** The request at entry `w` is what a reply to it looks up. */
  lemma ReplyLooksUp(cfg: Config, s: Net, w: nat, rq: Packet, r: Packet)
    requires WanSide(cfg, s) && w < s.sent && s.toWan[w].1 == rq
    requires Nat.IsReplyTo(r, rq)
    requires forall k :: w < k < s.sent && Nat.SameFlow(s.toWan[k].1, rq) ==>
               s.toWan[k].1.header.src == rq.header.src
    ensures Nat.Lookup(s.wan.table, r) == Some(rq.header.src)
  {
    Nat.ReplyFindsSender(Packets(s.toWan, s.sent), w, r);
  }

  /** What the request's frame is: from the host to the router, carrying `rq`. */
  predicate CarriesRequest(cfg: Config, pkt: EthernetPacket, m: Mac, rq: Packet)
  {
    pkt == EthernetPacket(EthernetFrame(cfg.mac, m, IPv4), rq.data) && Parse(rq.data) == Ok(rq)
  }

  lemma RequestIsOutside(cfg: Config, pkt: EthernetPacket, m: Mac, rq: Packet)
    requires CarriesRequest(cfg, pkt, m, rq) && cfg.hasWan && OutsideAddress(cfg, rq.header.dst)
    ensures Forwarded(cfg, FromLan(pkt)) == Some(rq)
  {
  }

  /**
   The way out: once the request's call has ended, it is message `idx` of the router and no
   other; once the router has handled that, it is entry `w` of what the WAN was handed and
   no other.
   */
  lemma RequestLeg(cfg: Config, s: Net, events: seq<Event>, t: Net, k: nat, rq: Packet, m: Mac, c: nat)
    returns (idx: nat, w: nat)
    requires Inv(cfg, s) && t == Exec(cfg, s, events) && cfg.hasWan && cfg.mac != BROADCAST
    requires OutsideAddress(cfg, rq.header.dst)
    requires |s.sw.callers| <= k < |t.sw.callers| && CarriesRequest(cfg, t.sw.callers[k].pkt, m, rq)
    requires c < |s.sw.learns| && SC.StaysLearned(t.sw.learns, c, cfg.mac, cfg.port)
    requires t.sw.callers[k].pc.Done? && forall j :: 0 <= j < |t.origins| && t.origins[j] == Some(k) ==> j < t.handled
    ensures BroughtOnce(t, k, idx) && ForwardedOnce(t.toWan, idx, rq, w)
  {
    idx := FrameReachesRouter(cfg, s, events, t, k, t.sw.callers[k].pkt, c);
    EveryRunKeeps(cfg, s, events);
    RequestIsOutside(cfg, t.sw.callers[k].pkt, m, rq);
    w := RequestIsForwarded(cfg, t.inbox[..t.handled], idx, rq);
  }

  /** The way back: the packet `r` is enqueued once, for the host `a`. */
  lemma ReplyLeg(cfg: Config, s3: Net, reply: seq<u8>, r: Packet, a: u32, q: Packet, s4: Net, after: seq<Event>,
                 s5: Net, m: Mac, p: nat, i: nat, c: nat)
    requires Inv(cfg, s3) && s4 == Next(cfg, s3, WanReceive(reply)) && s5 == Exec(cfg, s4, after)
    requires HostAddress(cfg, a) && m != BROADCAST
    requires Wan.Completes(s3.wan, reply, r) && Editable(r) && Nat.Lookup(s3.wan.table, r) == Some(a)
    requires q == Unmasquerade(r, a)
    requires |s3.inbox| < s5.handled && CallEnded(s5, |s3.inbox|)
    requires |s3.inbox| <= |s5.inbox| && StaysBound(s5.inbox[..|s3.inbox|], i, V4(a), m)
    requires SC.StaysLearned(s5.sw.learns, c, m, p) && c < |s3.sw.learns|
    ensures Enqueues(s5, |s3.inbox|) == [Enqueued(p, ToHost(cfg, m, q.data))]
  {
    ReplyIsRouted(cfg, s3, reply, s4, r, a, q);
    EveryRunKeeps(cfg, s4, after);
    HandledAreThere(cfg, s3);
    MessageIsDelivered(cfg, s4, after, s5, |s3.inbox|, q, m, p, i, c);
  }

  lemma HandledAreThere(cfg: Config, s: Net)
    requires Inv(cfg, s)
    ensures s.handled <= |s.inbox| && |s.origins| == |s.inbox| && s.sent <= |s.toWan| && |s.causes| == |s.sw.callers|
  {
  }

  /** In the bytes too, a rewritten reply is addressed to the host, header options or not. */
  lemma ReplyBytesAddressHost(r: Packet, a: u32)
    requires Editable(r) && r.header.ihl >= 5
    ensures Unmasquerade(r, a).header.dst == a
    ensures |Unmasquerade(r, a).data| >= 20 && Be32At(Unmasquerade(r, a).data, 16) == a
    ensures Be32At(Unmasquerade(r, a).data, 12) == r.header.src
  {
    hide PrintHeader, TransportSum;
    var h := r.header.(dst := a);
    PrintedFields(h, r.data);
    assert Unmasquerade(r, a) == FixTransport(Packet(h, PrintHeader(h, r.data)));
  }

  /** No other source has sent in the flow of entry `w` after it. */
  ghost predicate FlowNotReused(toWan: seq<(nat, Packet)>, sent: nat, w: nat)
    requires w < |toWan| && sent <= |toWan|
  {
    forall k :: w < k < sent && Nat.SameFlow(toWan[k].1, toWan[w].1) ==>
      toWan[k].1.header.src == toWan[w].1.header.src
  }

  /** Call `k`'s learning point is the last one that puts its source anywhere but on its port. */
  ghost predicate NoMoveSince(s: SC.State, k: nat, m: Mac, p: nat)
  {
    forall c, j :: 0 <= c < j < |s.learns| && s.learns[c].caller == k && s.learns[j].mac == m ==> s.learns[j].port == p
  }

  lemma {:induction false} ExecConcat(cfg: Config, s: Net, a: seq<Event>, b: seq<Event>)
    ensures Exec(cfg, s, a + b) == Exec(cfg, Exec(cfg, s, a), b)
  {
    hide Next;
    if b == [] {
      assert a + b == a;
    } else {
      var n := |b| - 1;
      ExecConcat(cfg, s, a, b[..n]);
      assert (a + b)[..|a| + n] == a + b[..n];
    }
  }

  lemma ExecOne(cfg: Config, s: Net, e: Event)
    ensures Exec(cfg, s, [e]) == Next(cfg, s, e)
  {
    assert [e][..0] == [];
  }

  /** The request's call starts. */
  lemma RequestStarts(cfg: Config, s: Net, p: nat, req: seq<u8>, t: Net)
    requires t == Next(cfg, s, Call(p, req)) && p < s.sw.nports && ExtractFrame(req).Some?
    ensures |t.sw.callers| == |s.sw.callers| + 1
    ensures t.sw.callers[|s.sw.callers|] == SC.Caller(p, ExtractFrame(req).value, SC.Check, 0, [])
  {
  }

  /** The request's call, and its learning point once it has ended. */
  lemma RequestLearns(cfg: Config, s1: Net, p: nat, req: seq<u8>, s2: Net, mid: seq<Event>, s3: Net, k: nat)
    returns (c: nat)
    requires Inv(cfg, s1) && s2 == Next(cfg, s1, Call(p, req)) && s3 == Exec(cfg, s2, mid) && k == |s1.sw.callers|
    requires p < s1.sw.nports && ExtractFrame(req).Some?
    requires k < |s3.sw.callers| && s3.sw.callers[k].pc.Done?
    ensures Inv(cfg, s3) && Grows(s1, s3) && s3.sw.callers[k].pkt == ExtractFrame(req).value
    ensures s3.sw.callers[k].port == p
    ensures c < |s3.sw.learns| && s3.sw.learns[c].caller == k
    ensures s3.sw.learns[c].mac == ExtractFrame(req).value.frame.src && s3.sw.learns[c].port == p
  {
    hide Next, Exec;
    NextKeeps(cfg, s1, Call(p, req));
    RequestStarts(cfg, s1, p, req, s2);
    EveryRunKeeps(cfg, s2, mid);
    GrowsThrough(s1, s2, s3);
    c := PointOfCall(cfg, s3, k);
  }

  lemma PointOfCall(cfg: Config, s: Net, k: nat) returns (c: nat)
    requires Inv(cfg, s) && k < |s.sw.callers| && s.sw.callers[k].pc.Done?
    ensures c < |s.sw.learns| && s.sw.learns[c].caller == k
    ensures SC.CarriedBy(s.sw.callers[k], s.sw.learns[c].mac, s.sw.learns[c].port)
  {
    assert SC.HasPoint(s.sw.learns, k);
    c :| 0 <= c < |s.sw.learns| && s.sw.learns[c].caller == k;
    assert SC.LearnOfCall(s.sw, s.sw.learns[c]);
  }

  lemma SettledSince(cfg: Config, s3: Net, reply: seq<u8>, s4: Net, after: seq<Event>, s5: Net, k: nat, m: Mac, p: nat,
                     c: nat)
    requires Inv(cfg, s3) && s4 == Next(cfg, s3, WanReceive(reply)) && s5 == Exec(cfg, s4, after)
    requires c < |s3.sw.learns| && s3.sw.learns[c].caller == k && s3.sw.learns[c].mac == m && s3.sw.learns[c].port == p
    requires NoMoveSince(s5.sw, k, m, p)
    ensures SC.StaysLearned(s5.sw.learns, c, m, p)
  {
    hide Next, Exec, Inv;
    NextKeeps(cfg, s3, WanReceive(reply));
    EveryRunKeeps(cfg, s4, after);
    GrowsThrough(s3, s4, s5);
  }

  lemma SentIsInTunnel(cfg: Config, s: Net, reply: seq<u8>, r: Packet, w: nat, rq: Packet)
    requires WanSide(cfg, s) && Wan.Completes(s.wan, reply, r) && w < s.sent && s.toWan[w].1 == rq
    ensures w < |s.tunnel| && Masqueraded(cfg, rq, s.tunnel[w])
  {
    assert Masqueraded(cfg, s.toWan[w].1, s.tunnel[w]);
  }

  /**
   What a caller can see to: the MAC has not moved since call `k` learned it if every call that
   carries it from another port had learned before call `k` started.
   */
  lemma StillHostDoesNotMove(s1: SC.State, s: SC.State, k: nat, m: Mac, p: nat)
    requires SC.LearnInv(s1) && SC.LearnInv(s) && s1.learns <= s.learns && k == |s1.callers|
    requires forall i :: 0 <= i < |s.callers| && s.callers[i].pkt.frame.src == m && s.callers[i].port != p ==>
               i < k && s1.callers[i].HasLearned()
    ensures NoMoveSince(s, k, m, p)
  {
    assert forall e :: 0 <= e < |s1.learns| ==> SC.LearnOfCall(s1, s1.learns[e]);
    forall c, j | 0 <= c < j < |s.learns| && s.learns[c].caller == k && s.learns[j].mac == m
      ensures s.learns[j].port == p
    {
      assert c >= |s1.learns|;
      assert SC.LearnOfCall(s, s.learns[j]);
      SC.NewPoint(s1, s, j);
    }
  }

  /**
   A guest on port `p` with MAC `m` and address `a` sends the request `rq` to an outside
   address, in call `k` of the switch; later a packet `r` comes in that answers it. The request
   has reached the router exactly once and left masqueraded, exactly once; and once the router
   has handled the reply and its own call has ended, the reply has been enqueued exactly once, on
   port `p`, addressed to `m` and rewritten to destination `a`, provided that `a` was last bound
   to `m`, that no call has learned `m` on another port since call `k` did, and that no other
   source has sent from that port to that address, or with that ICMP id, in between.
   */
  lemma RoundTrip(cfg: Config, before: seq<Event>, p: nat, req: seq<u8>, rq: Packet, mid: seq<Event>,
                  reply: seq<u8>, r: Packet, after: seq<Event>, m: Mac, i: nat, c: nat,
                  s1: Net, s2: Net, s3: Net, s4: Net, s5: Net, k: nat)
    returns (idx: nat, w: nat, q: Packet)
    requires s1 == Exec(cfg, Init(cfg), before) && k == |s1.sw.callers|
    requires s2 == Next(cfg, s1, Call(p, req)) && s3 == Exec(cfg, s2, mid)
    requires s4 == Next(cfg, s3, WanReceive(reply)) && s5 == Exec(cfg, s4, after)
    // the configuration, and the host
    requires cfg.hasWan && cfg.mac != BROADCAST && m != BROADCAST
    requires HostAddress(cfg, rq.header.src) && OutsideAddress(cfg, rq.header.dst)
    // the request, from port p
    requires p < s1.sw.nports && ExtractFrame(req).Some? && CarriesRequest(cfg, ExtractFrame(req).value, m, rq)
    // the router's MAC had settled on its port, and stays there until the request is through
    requires c < |s1.sw.learns| && SC.StaysLearned(s3.sw.learns, c, cfg.mac, cfg.port)
    // switch, router and WAN have passed the request on before the reply comes
    requires k < |s3.sw.callers| && s3.sw.callers[k].pc.Done?
    requires forall j :: 0 <= j < |s3.origins| && s3.origins[j] == Some(k) ==> j < s3.handled
    requires forall j :: 0 <= j < |s3.toWan| && s3.toWan[j].0 < |s3.origins| && s3.origins[s3.toWan[j].0] == Some(k) ==>
               j < s3.sent <= |s3.toWan| && FlowNotReused(s3.toWan, s3.sent, j)
    // the reply
    requires Wan.Completes(s3.wan, reply, r) && Editable(r) && Nat.IsReplyTo(r, rq)
    // the host has ARPed, and stays where it is until the router has sent it the reply
    requires |s3.inbox| < s5.handled && CallEnded(s5, |s3.inbox|)
    requires |s3.inbox| <= |s5.inbox| && StaysBound(s5.inbox[..|s3.inbox|], i, V4(rq.header.src), m)
    requires NoMoveSince(s5.sw, k, m, p)
    ensures BroughtOnce(s3, k, idx) && ForwardedOnce(s3.toWan, idx, rq, w)
    ensures w < |s3.tunnel| && Masqueraded(cfg, rq, s3.tunnel[w])
    ensures rq.header.ihl >= 5 ==> Rewritten(rq, s3.tunnel[w], cfg.wanIp, rq.header.dst)
    ensures q.header == r.header.(dst := rq.header.src)
    ensures r.header.ihl >= 5 ==> Rewritten(r, q.data, r.header.src, rq.header.src)
    ensures q == Unmasquerade(r, rq.header.src)
    ensures Enqueues(s5, |s3.inbox|) == [Enqueued(p, ToHost(cfg, m, q.data))]
  {
    hide Next, Exec, Readdress, Rewritten, Parse, Nat.Key, Binding, Wan.Reassemble, SwitchSide, RouterSide, WanSide,
      StaysBound, SC.StaysLearned, OutsideAddress, HostAddress, Enqueues, Wan.Completes, Editable, Nat.IsReplyTo,
      CallEnded, Forwards, Grows;
    InitKeeps(cfg);
    EveryRunKeeps(cfg, Init(cfg), before);
    var c' := RequestLearns(cfg, s1, p, req, s2, mid, s3, k);
    ExecOne(cfg, s1, Call(p, req));
    ExecConcat(cfg, s1, [Call(p, req)], mid);
    idx, w := RequestLeg(cfg, s1, [Call(p, req)] + mid, s3, k, rq, m, c);
    SentIsInTunnel(cfg, s3, reply, r, w, rq);
    q := Unmasquerade(r, rq.header.src);
    if r.header.ihl >= 5 {
      OneAddressIsRewritten(r, rq.header.src);
    }
    ReplyLooksUp(cfg, s3, w, rq, r);
    SettledSince(cfg, s3, reply, s4, after, s5, k, m, p, c');
    ReplyLeg(cfg, s3, reply, r, rq.header.src, q, s4, after, s5, m, p, i, c');
  }
}
