/**
 The whole bridge as a step system. Guest devices and the router thread call the switch, and
 every call runs step by step between its locks, interleaved with all others; the router
 empties its inbox, one call of the switch at a time; the WAN thread sends and receives. The
 state remembers which router message caused each call of the switch, and which call brought
 each message to the router, so that "exactly once" can be said of a whole run.
 */
module Network {
  import opened Bytes
  import opened Frame
  import opened Arp
  import opened Ipv4
  import opened Router
  import Subnet
  import Nat
  import SC = SwitchConcurrency
  import Wan

  datatype Net = Net(
    // the switch, and the router message that caused each of its calls
    sw: SC.State, causes: seq<Option<nat>>,
    // the router: its ARP table, every message ever sent to it, the call that brought each, how many it has handled,
    // and what the model left open for each of those
    arp: ArpTable, inbox: seq<Msg>, origins: seq<Option<nat>>, handled: nat, envs: seq<Env>, routerAlive: bool,
    // the WAN: packets handed to it with the message that caused each, how many it has sent
    toWan: seq<(nat, Packet)>, sent: nat, tunnel: seq<seq<u8>>, wan: Wan.WanState)

  datatype Event =
    | Connect
    | Call(port: nat, bytes: seq<u8>)
    | SwitchStep(call: nat)
    | RouterStep(env: Env)
    | WanSend
    | WanReceive(bytes: seq<u8>)

  /** Only the router is connected. */
  function Init(cfg: Config): (r: Net)
  {
    Net(SC.State(cfg.port + 1, map[], [], [], []), [], map[], [], [], 0, [], true,
        [], 0, [], Wan.WanState(map[], map[], true))
  }

  /** The call that has just enqueued on the router's port, if one has. */
  function Arrival(cfg: Config, before: SC.State, after: SC.State): (r: Option<nat>)
    ensures r.Some? ==> r.value < |after.callers|
  {
    var n := |after.log| - 1;
    if n >= |before.log| && after.log[n].1 == cfg.port && after.log[n].0 < |after.callers| then Some(after.log[n].0)
    else None
  }

  /** A step of the switch; a call it starts has the cause `cause`. */
  function Switching(cfg: Config, s: Net, a: SC.Action, cause: Option<nat>): (r: Net)
  {
    var sw := SC.Next(s.sw, a);
    var from := Arrival(cfg, s.sw, sw);
    s.(sw := sw,
       causes := if |sw.callers| > |s.sw.callers| then s.causes + [cause] else s.causes,
       inbox := if from.Some? then s.inbox + [FromLan(sw.callers[from.value].pkt)] else s.inbox,
       origins := if from.Some? then s.origins + [from] else s.origins)
  }

  /** One more message is handled. */
  function AfterOne(s: Net, arp: ArpTable, env: Env): (r: Net)
  {
    s.(arp := arp, handled := s.handled + 1, envs := s.envs + [env])
  }

  /** What handling the next message of the inbox leads to. */
  function Apply(cfg: Config, s: Net, env: Env, h: Handled): (r: Net)
    requires s.handled < |s.inbox|
  {
    var s' := AfterOne(s, h.arp, env);
    match h.action
    case ToSwitch(bytes) => Switching(cfg, s', SC.Start(cfg.port, bytes), Some(s.handled))
    case ToWan(p) => s'.(toWan := s.toWan + [(s.handled, p)])
    case Drop => s'
    case Dead => s.(routerAlive := false)
  }

  function HandleNext(cfg: Config, s: Net, env: Env): (r: Net)
    requires s.handled < |s.inbox|
  {
    Apply(cfg, s, env, HandleMsg(cfg, s.arp, s.inbox[s.handled], env))
  }

  function SendNext(cfg: Config, s: Net): (r: Net)
    requires s.sent < |s.toWan|
  {
    var (wan, out) := Wan.Outbound(s.wan, cfg.wanIp, s.toWan[s.sent].1);
    s.(wan := wan, sent := s.sent + 1, tunnel := s.tunnel + if out.Some? then [out.value] else [])
  }

  function Receive(s: Net, bytes: seq<u8>): (r: Net)
  {
    var (wan, out) := Wan.Inbound(s.wan, bytes);
    s.(wan := wan,
       inbox := if out.Some? then s.inbox + [FromWan4(out.value)] else s.inbox,
       origins := if out.Some? then s.origins + [None] else s.origins)
  }

  /** The router thread is not in the middle of a call of the switch. */
  predicate RouterIdle(s: Net)
  {
    forall k :: 0 <= k < |s.sw.callers| && k < |s.causes| && s.causes[k].Some? ==> s.sw.callers[k].pc.Done?
  }

  predicate RouterCanStep(s: Net)
  {
    s.routerAlive && s.handled < |s.inbox| && RouterIdle(s)
  }

  /** An event that cannot happen changes nothing. */
  function Next(cfg: Config, s: Net, e: Event): (r: Net)
  {
    match e
    case Connect => Switching(cfg, s, SC.Connect, None)
    case Call(port, bytes) => Switching(cfg, s, SC.Start(port, bytes), None)
    case SwitchStep(call) => Switching(cfg, s, SC.Step(call), None)
    case RouterStep(env) => if RouterCanStep(s) then HandleNext(cfg, s, env) else s
    case WanSend => if s.wan.alive && s.sent < |s.toWan| then SendNext(cfg, s) else s
    case WanReceive(bytes) => if s.wan.alive then Receive(s, bytes) else s
  }

  function Exec(cfg: Config, s: Net, events: seq<Event>): (r: Net)
  {
    if events == [] then s else Next(cfg, Exec(cfg, s, events[..|events| - 1]), events[|events| - 1])
  }

  function Packets(toWan: seq<(nat, Packet)>, n: nat): (r: seq<Packet>)
    requires n <= |toWan|
    ensures |r| == n && forall i :: 0 <= i < n ==> r[i] == toWan[i].1
  {
    if n == 0 then [] else Packets(toWan, n - 1) + [toWan[n - 1].1]
  }

  //
  // What messages are for
  //

  /** A host of the subnet, other than the router. */
  predicate HostAddress(cfg: Config, a: u32)
  {
    cfg.network.Contains(a) && !IsLocal(cfg, a)
  }

  predicate OutsideAddress(cfg: Config, r: u32)
  {
    !cfg.network.Contains(r) && r != Subnet.MAX_IP
  }

  function ToHost(cfg: Config, m: Mac, data: seq<u8>): (r: EthernetPacket)
  {
    EthernetPacket(EthernetFrame(m, cfg.mac, IPv4), data)
  }

  function Wire(pkt: EthernetPacket): (r: seq<u8>)
  {
    FrameBytes(pkt.frame) + pkt.payload
  }

  /** The packet a message asks the router to forward. */
  function Forwarded(cfg: Config, msg: Msg): (r: Option<Packet>)
  {
    var p := match msg
             case FromLan(pkt) => if pkt.frame.ethertype == IPv4 then Parse(pkt.payload) else Err
             case FromWan4(ip) => Ok(ip);
    if p.Ok? && cfg.hasWan && OutsideAddress(cfg, p.value.header.dst) then Some(p.value) else None
  }

  /** All packets to forward, with the position of their message. */
  function Forwards(cfg: Config, msgs: seq<Msg>): (r: seq<(nat, Packet)>)
  {
    if msgs == [] then []
    else
      var n := |msgs| - 1;
      Forwards(cfg, msgs[..n]) + match Forwarded(cfg, msgs[n]) case Some(p) => [(n, p)] case None => []
  }

  /** The frame a WAN packet for a known host becomes. */
  function HostFrame(cfg: Config, arp: ArpTable, msg: Msg): (r: Option<EthernetPacket>)
  {
    if msg.FromWan4? && HostAddress(cfg, msg.ip.header.dst) then
      match Get(arp, V4(msg.ip.header.dst))
      case Some(m) => Some(ToHost(cfg, m, msg.ip.data))
      case None => None
    else None
  }

  lemma HandlingForwards(cfg: Config, arp: ArpTable, msg: Msg, env: Env)
    ensures var a := HandleMsg(cfg, arp, msg, env).action;
            Forwarded(cfg, msg) == if a.ToWan? then Some(a.ip) else None
  {
  }

  lemma HandlingFrames(cfg: Config, arp: ArpTable, msg: Msg, env: Env)
    ensures HostFrame(cfg, arp, msg).Some? ==>
              HandleMsg(cfg, arp, msg, env).action == ToSwitch(Wire(HostFrame(cfg, arp, msg).value))
  {
  }

  predicate IsFrame(bytes: seq<u8>)
  {
    ExtractFrame(bytes).Some? && bytes == Wire(ExtractFrame(bytes).value)
  }

  lemma FrameIsFrame(frame: EthernetFrame, payload: seq<u8>)
    ensures IsFrame(FrameBytes(frame) + payload)
  {
    PrintThenExtract(EthernetPacket(frame, payload));
  }

  lemma WriteLanPrints(cfg: Config, arp: ArpTable, lan: Option<Mac>, dst: u32, bytes: seq<u8>)
    ensures var a := WriteLan(cfg, arp, lan, dst, bytes); a.ToSwitch? ==> IsFrame(a.bytes)
  {
    hide IsFrame, FrameBytes;
    var mac := if lan.Some? then lan else Get(arp, V4(dst));
    if mac.Some? {
      FrameIsFrame(EthernetFrame(mac.value, cfg.mac, IPv4), bytes);
    }
  }

  lemma RoutingPrints(cfg: Config, arp: ArpTable, lan: Option<Mac>, p: Packet, env: Env)
    ensures var a := RouteIp4(cfg, arp, lan, p, env); a.ToSwitch? ==> IsFrame(a.bytes)
  {
    hide IsFrame, WriteLan, PrintHeader, HandleProtocol;
    WriteLanPrints(cfg, arp, lan, p.header.dst, p.data);
    var reply := HandleProtocol(p, env);
    if reply.Ok? {
      var h := ReplyHeader(p, env.id, |reply.value|);
      WriteLanPrints(cfg, arp, lan, h.dst, PrintHeader(h, Zeros(20) + reply.value));
    }
  }

  /** Every frame the router sends can be read back. */
  lemma HandlingPrints(cfg: Config, arp: ArpTable, msg: Msg, env: Env)
    ensures var a := HandleMsg(cfg, arp, msg, env).action; a.ToSwitch? ==> IsFrame(a.bytes)
  {
    hide IsFrame, RouteIp4, FrameBytes, ArpBytes, ParseArp, Parse;
    if msg.FromWan4? {
      RoutingPrints(cfg, arp, None, msg.ip, env);
    } else if msg.pkt.frame.ethertype == IPv4 && Parse(msg.pkt.payload).Ok? {
      RoutingPrints(cfg, arp, Some(msg.pkt.frame.src), Parse(msg.pkt.payload).value, env);
    } else if msg.pkt.frame.ethertype == ARP && ParseArp(msg.pkt.payload).Ok? {
      var a := ParseArp(msg.pkt.payload).value;
      FrameIsFrame(EthernetFrame(msg.pkt.frame.src, cfg.mac, ARP), ArpBytes(Reply(a, cfg.mac)));
    }
  }

  //
  // What every run keeps
  //

  /** Every message a call brought is that call's packet, and each call has brought as many as it enqueued. */
  ghost predicate OriginsMatch(cfg: Config, s: Net)
  {
    && |s.origins| == |s.inbox|
    && (forall idx :: 0 <= idx < |s.origins| && s.origins[idx].Some? ==> BroughtBy(s, idx, s.origins[idx].value))
    && (forall i :: 0 <= i < |s.sw.callers| ==>
          multiset(s.origins)[Some(i)] == multiset(s.sw.callers[i].sent)[cfg.port])
  }

  predicate BroughtBy(s: Net, idx: nat, i: nat)
    requires idx < |s.inbox|
  {
    i < |s.sw.callers| && s.inbox[idx] == FromLan(s.sw.callers[i].pkt)
  }

  ghost predicate SwitchSide(cfg: Config, s: Net)
  {
    SC.Inv(s.sw) && SC.LearnInv(s.sw) && cfg.port < s.sw.nports && |s.causes| == |s.sw.callers| && OriginsMatch(cfg, s)
  }

  /** A handled message has caused at most one call, and no other message any. */
  ghost predicate CausesPrecede(causes: seq<Option<nat>>, handled: nat)
  {
    && (forall k :: 0 <= k < |causes| && causes[k].Some? ==> causes[k].value < handled)
    && (forall k, l :: 0 <= k < l < |causes| && causes[k].Some? ==> causes[k] != causes[l])
  }

  /** Message `idx` has caused a call with the frame `pkt` on the router's port. */
  ghost predicate HasCall(cfg: Config, s: Net, idx: nat, pkt: EthernetPacket)
  {
    exists k :: 0 <= k < |s.causes| && IsCall(cfg, s, idx, pkt, k)
  }

  predicate IsCall(cfg: Config, s: Net, idx: nat, pkt: EthernetPacket, k: nat)
    requires k < |s.causes|
  {
    s.causes[k] == Some(idx) && k < |s.sw.callers| && s.sw.callers[k].pkt == pkt && s.sw.callers[k].port == cfg.port
  }

  ghost predicate NoCall(causes: seq<Option<nat>>, idx: nat)
  {
    forall k :: 0 <= k < |causes| ==> causes[k] != Some(idx)
  }

  /** If handling message `idx` leads to a frame, the message has caused the call with it, and else none. */
  ghost predicate CallAt(cfg: Config, s: Net, idx: nat)
    requires idx < |s.inbox| && idx < |s.envs|
  {
    CallFor(cfg, s, idx, HandleMsg(cfg, ArpAfter(s.inbox[..idx]), s.inbox[idx], s.envs[idx]).action)
  }

  ghost predicate CallFor(cfg: Config, s: Net, idx: nat, action: Action)
  {
    if action.ToSwitch? then ExtractFrame(action.bytes).Some? && HasCall(cfg, s, idx, ExtractFrame(action.bytes).value)
    else NoCall(s.causes, idx)
  }

  ghost predicate RouterSide(cfg: Config, s: Net)
  {
    && s.handled == |s.envs| <= |s.inbox|
    && s.arp == ArpAfter(s.inbox[..s.handled])
    && s.toWan == Forwards(cfg, s.inbox[..s.handled])
    && CausesPrecede(s.causes, s.handled)
    && forall idx :: 0 <= idx < s.handled ==> CallAt(cfg, s, idx)
  }

  /** While the WAN thread lives, the tunnel gets every sent packet, masqueraded. */
  ghost predicate WanSide(cfg: Config, s: Net)
  {
    && s.sent <= |s.toWan|
    && s.wan.table == Nat.After(Packets(s.toWan, s.sent))
    && (s.wan.alive ==>
          && |s.tunnel| == s.sent
          && forall k :: 0 <= k < s.sent ==> Masqueraded(cfg, s.toWan[k].1, s.tunnel[k]))
  }

  /** The packet with the WAN address for its source and its own destination. */
  ghost predicate Masqueraded(cfg: Config, p: Packet, bytes: seq<u8>)
  {
    && Editable(p) && bytes == Masquerade(p, cfg.wanIp).data
    && (p.header.ihl >= 5 ==> Rewritten(p, bytes, cfg.wanIp, p.header.dst))
  }

  /** Every message from the WAN is a reply to a packet sent before, addressed to that packet's source. */
  ghost predicate ReplySide(s: Net)
  {
    forall idx :: 0 <= idx < |s.inbox| && s.inbox[idx].FromWan4? ==> Solicited(s, s.inbox[idx].ip)
  }

  ghost predicate Solicited(s: Net, q: Packet)
  {
    exists w :: 0 <= w < s.sent && w < |s.toWan| && Answers(q, s.toWan[w].1)
  }

  /** `q` is a reply to `sent`, on its way back to the sender. */
  ghost predicate Answers(q: Packet, sent: Packet)
  {
    exists p :: Nat.IsReplyTo(p, sent) && Wan.SentBackTo(p, q, sent.header.src)
  }

  /** The tables are what the histories say, and every effect has a handled cause. */
  ghost predicate Inv(cfg: Config, s: Net)
  {
    SwitchSide(cfg, s) && RouterSide(cfg, s) && WanSide(cfg, s) && ReplySide(s)
  }

  /** Histories only grow, and calls keep their frame and port. */
  ghost predicate Grows(s: Net, t: Net)
  {
    && SC.Extends(s.sw, t.sw) && s.sw.learns <= t.sw.learns && s.causes <= t.causes
    && s.inbox <= t.inbox && s.origins <= t.origins && s.toWan <= t.toWan
    && s.handled <= t.handled && s.envs <= t.envs && s.sent <= t.sent
  }

  /** One step of the switch makes at most one call or one enqueue. */
  lemma StepEffect(s: SC.State, a: SC.Action)
    requires SC.Inv(s)
    ensures var t := SC.Next(s, a);
            && |s.callers| <= |t.callers| <= |s.callers| + 1 && |s.log| <= |t.log| <= |s.log| + 1
            && (|t.callers| > |s.callers| ==> t.callers[|s.callers|].sent == [] && t.log == s.log)
            && (|t.log| > |s.log| ==>
                  var (i, port) := t.log[|s.log|];
                  i < |s.callers| && t.callers[i].sent == s.callers[i].sent + [port])
            && forall j :: 0 <= j < |s.callers| && (|t.log| == |s.log| || t.log[|s.log|].0 != j) ==>
                 t.callers[j].sent == s.callers[j].sent
  {
    if a.Step? && a.caller < |s.callers| {
      CallerEffect(s, a.caller);
      hide SC.CallerStep, SC.Inv;
    }
  }

  lemma CallerEffect(s: SC.State, i: nat)
    requires i < |s.callers|
    ensures var t := SC.CallerStep(s, i);
            && |t.callers| == |s.callers| && |s.log| <= |t.log| <= |s.log| + 1
            && (|t.log| > |s.log| ==>
                  t.log[|s.log|].0 == i && t.callers[i].sent == s.callers[i].sent + [t.log[|s.log|].1])
            && forall j :: 0 <= j < |s.callers| && (|t.log| == |s.log| || i != j) ==>
                 t.callers[j].sent == s.callers[j].sent
  {
  }

  lemma SnocCount<T>(q: seq<T>, x: T, y: T)
    ensures multiset(q + [x])[y] == multiset(q)[y] + if x == y then 1 else 0
  {
  }

  /** Nothing came from a call that has not started. */
  lemma NoOriginYet(cfg: Config, s: Net, i: nat)
    requires OriginsMatch(cfg, s) && i >= |s.sw.callers|
    ensures multiset(s.origins)[Some(i)] == 0
  {
    forall idx | 0 <= idx < |s.origins| ensures s.origins[idx] != Some(i) {
      if s.origins[idx].Some? {
        assert BroughtBy(s, idx, s.origins[idx].value);
      }
    }
    assert Some(i) !in s.origins;
  }

  /** The router gets a message from call `i` exactly when call `i` enqueues on its port. */
  lemma CountsAgree(origins: seq<Option<nat>>, sent: seq<nat>, origins': seq<Option<nat>>, sent': seq<nat>,
                    from: Option<nat>, i: nat, port: nat)
    requires multiset(origins)[Some(i)] == multiset(sent)[port]
    requires origins' == if from.Some? then origins + [from] else origins
    requires || (sent' == sent && from != Some(i))
             || (|sent'| == |sent| + 1 && sent' == sent + [sent'[|sent|]]
                 && (from == Some(i) <==> sent'[|sent|] == port))
    ensures multiset(origins')[Some(i)] == multiset(sent')[port]
  {
    SnocCount(origins, from, Some(i));
    if sent' != sent {
      SnocCount(sent, sent'[|sent|], port);
    }
  }

  /** The new enqueue, if there is one, and what it leaves alone. */
  ghost predicate OneEnqueue(cfg: Config, s: SC.State, t: SC.State, from: Option<nat>)
  {
    && |s.callers| <= |t.callers| && SC.Extends(s, t) && (from.Some? ==> from.value < |s.callers|)
    && (forall i :: 0 <= i < |s.callers| ==> SentBy(cfg, s.callers[i].sent, t.callers[i].sent, from, i))
    && (forall i :: |s.callers| <= i < |t.callers| ==> t.callers[i].sent == [])
  }

  predicate SentBy(cfg: Config, sent: seq<nat>, sent': seq<nat>, from: Option<nat>, i: nat)
  {
    || (sent' == sent && from != Some(i))
    || (|sent'| == |sent| + 1 && sent' == sent + [sent'[|sent|]] && (from == Some(i) <==> sent'[|sent|] == cfg.port))
  }

  lemma StepEnqueues(cfg: Config, s: SC.State, a: SC.Action)
    requires SC.Inv(s) && SC.LearnInv(s)
    ensures OneEnqueue(cfg, s, SC.Next(s, a), Arrival(cfg, s, SC.Next(s, a)))
  {
    hide SC.Next, SC.Inv, SC.LearnInv, Arrival;
    var t := SC.Next(s, a);
    StepEffect(s, a);
    SC.NextKeepsLearns(s, a);
    ArrivalIs(cfg, s, t);
  }

  lemma BringsCounts(cfg: Config, s: Net, t: Net, from: Option<nat>)
    requires OriginsMatch(cfg, s) && OneEnqueue(cfg, s.sw, t.sw, from)
    requires t.origins == if from.Some? then s.origins + [from] else s.origins
    ensures forall i :: 0 <= i < |t.sw.callers| ==>
              multiset(t.origins)[Some(i)] == multiset(t.sw.callers[i].sent)[cfg.port]
  {
    forall i | 0 <= i < |t.sw.callers|
      ensures multiset(t.origins)[Some(i)] == multiset(t.sw.callers[i].sent)[cfg.port]
    {
      if i < |s.sw.callers| {
        assert SentBy(cfg, s.sw.callers[i].sent, t.sw.callers[i].sent, from, i);
        CountsAgree(s.origins, s.sw.callers[i].sent, t.origins, t.sw.callers[i].sent, from, i, cfg.port);
      } else {
        NoOriginYet(cfg, s, i);
      }
    }
  }

  lemma BringsOwn(cfg: Config, s: Net, t: Net, from: Option<nat>)
    requires OriginsMatch(cfg, s) && OneEnqueue(cfg, s.sw, t.sw, from)
    requires t.origins == if from.Some? then s.origins + [from] else s.origins
    requires t.inbox == if from.Some? then s.inbox + [FromLan(t.sw.callers[from.value].pkt)] else s.inbox
    ensures forall idx :: 0 <= idx < |t.origins| && t.origins[idx].Some? ==> BroughtBy(t, idx, t.origins[idx].value)
  {
    forall idx | 0 <= idx < |t.origins| && t.origins[idx].Some? ensures BroughtBy(t, idx, t.origins[idx].value) {
      if idx < |s.origins| {
        assert BroughtBy(s, idx, s.origins[idx].value);
      }
    }
  }

  lemma SwitchingBrings(cfg: Config, s: Net, a: SC.Action, cause: Option<nat>)
    requires SwitchSide(cfg, s)
    ensures OriginsMatch(cfg, Switching(cfg, s, a, cause))
  {
    hide SC.Next, SC.Inv, SC.LearnInv, Arrival, OneEnqueue;
    var t := Switching(cfg, s, a, cause);
    StepEnqueues(cfg, s.sw, a);
    BringsCounts(cfg, s, t, Arrival(cfg, s.sw, t.sw));
    BringsOwn(cfg, s, t, Arrival(cfg, s.sw, t.sw));
  }

  lemma ArrivalIs(cfg: Config, s: SC.State, t: SC.State)
    requires |s.log| <= |t.log| <= |s.log| + 1
    requires |t.log| > |s.log| ==> t.log[|s.log|].0 < |t.callers|
    ensures Arrival(cfg, s, t)
            == if |t.log| > |s.log| && t.log[|s.log|].1 == cfg.port then Some(t.log[|s.log|].0) else None
  {
  }

  lemma SwitchingKeepsSwitch(cfg: Config, s: Net, a: SC.Action, cause: Option<nat>)
    requires SwitchSide(cfg, s)
    ensures var t := Switching(cfg, s, a, cause);
            && SwitchSide(cfg, t) && Grows(s, t)
            && t == s.(sw := t.sw, causes := t.causes, inbox := t.inbox, origins := t.origins)
            && forall idx :: |s.inbox| <= idx < |t.inbox| ==> t.inbox[idx].FromLan?
  {
    SC.NextKeepsInv(s.sw, a);
    SC.NextKeepsLearns(s.sw, a);
    StepEffect(s.sw, a);
    SwitchingBrings(cfg, s, a, cause);
  }

  /** Messages from the WAN stay answers, and the switch brings none. */
  lemma ReplySideStays(s: Net, t: Net)
    requires ReplySide(s) && s.inbox <= t.inbox && s.toWan <= t.toWan && s.sent <= t.sent
    requires forall idx :: |s.inbox| <= idx < |t.inbox| ==> t.inbox[idx].FromLan?
    ensures ReplySide(t)
  {
    hide Answers;
    forall idx | 0 <= idx < |t.inbox| && t.inbox[idx].FromWan4? ensures Solicited(t, t.inbox[idx].ip) {
      assert t.inbox[idx] == s.inbox[idx];
      var w :| 0 <= w < s.sent && w < |s.toWan| && Answers(t.inbox[idx].ip, s.toWan[w].1);
      assert t.toWan[w] == s.toWan[w];
    }
  }

  lemma PrefixKept(s: Net, t: Net)
    requires s.inbox <= t.inbox && s.handled <= |s.inbox|
    ensures t.inbox[..s.handled] == s.inbox[..s.handled]
  {
  }

  /** A call made for a message stays made, and its only one. */
  lemma CallStays(cfg: Config, s: Net, t: Net, idx: nat)
    requires idx < |s.inbox| && s.inbox <= t.inbox && idx < |s.envs| && s.envs <= t.envs
    requires SC.Extends(s.sw, t.sw) && s.causes <= t.causes
    requires forall k :: |s.causes| <= k < |t.causes| ==> t.causes[k] != Some(idx)
    requires CallAt(cfg, s, idx)
    ensures CallAt(cfg, t, idx)
  {
    hide HandleMsg, ExtractFrame;
    assert t.inbox[..idx] == s.inbox[..idx];
    var a := HandleMsg(cfg, ArpAfter(s.inbox[..idx]), s.inbox[idx], s.envs[idx]).action;
    if a.ToSwitch? {
      var k :| 0 <= k < |s.causes| && IsCall(cfg, s, idx, ExtractFrame(a.bytes).value, k);
      assert IsCall(cfg, t, idx, ExtractFrame(a.bytes).value, k);
    }
  }

  lemma RouterSideStays(cfg: Config, s: Net, t: Net)
    requires RouterSide(cfg, s) && s.inbox <= t.inbox && SC.Extends(s.sw, t.sw)
    requires s.causes <= t.causes && forall k :: |s.causes| <= k < |t.causes| ==> t.causes[k] == None
    requires t.arp == s.arp && t.handled == s.handled && t.envs == s.envs && t.toWan == s.toWan
    ensures RouterSide(cfg, t)
  {
    hide CallAt;
    PrefixKept(s, t);
    forall idx | 0 <= idx < t.handled ensures CallAt(cfg, t, idx) {
      CallStays(cfg, s, t, idx);
    }
  }

  /** A step of the switch that no router message causes. */
  lemma SwitchingKeeps(cfg: Config, s: Net, a: SC.Action)
    requires Inv(cfg, s)
    ensures Inv(cfg, Switching(cfg, s, a, None)) && Grows(s, Switching(cfg, s, a, None))
  {
    SwitchingKeepsSwitch(cfg, s, a, None);
    RouterSideStays(cfg, s, Switching(cfg, s, a, None));
    ReplySideStays(s, Switching(cfg, s, a, None));
  }

  lemma ArpAfterNext(msgs: seq<Msg>, n: nat)
    requires n < |msgs|
    ensures ArpAfter(msgs[..n + 1]) == Learn(ArpAfter(msgs[..n]), msgs[n])
  {
    assert msgs[..n + 1][..n] == msgs[..n];
  }

  lemma ForwardsNext(cfg: Config, msgs: seq<Msg>, n: nat)
    requires n < |msgs|
    ensures Forwards(cfg, msgs[..n + 1])
            == Forwards(cfg, msgs[..n]) + match Forwarded(cfg, msgs[n]) case Some(p) => [(n, p)] case None => []
  {
    assert msgs[..n + 1][..n] == msgs[..n];
  }

  /** What handling a message changes. */
  lemma ApplyEffect(cfg: Config, s: Net, env: Env, h: Handled)
    requires SwitchSide(cfg, s) && s.handled < |s.inbox| && !h.action.Dead?
    ensures var t := Apply(cfg, s, env, h);
            && SwitchSide(cfg, t) && Grows(s, t) && t.inbox == s.inbox && t.arp == h.arp
            && t.handled == s.handled + 1 && t.envs == s.envs + [env]
            && t.toWan == s.toWan + (if h.action.ToWan? then [(s.handled, h.action.ip)] else [])
            && t.sent == s.sent && t.tunnel == s.tunnel && t.wan == s.wan && t.routerAlive == s.routerAlive
            && (t.causes == s.causes || (h.action.ToSwitch? && t.causes == s.causes + [Some(s.handled)]))
            && (forall pkt :: h.action == ToSwitch(Wire(pkt)) ==> HasCall(cfg, t, s.handled, pkt))
  {
    hide SwitchSide;
    var t := Apply(cfg, s, env, h);
    if h.action.ToSwitch? {
      hide Switching, SC.Next, HasCall;
      CallStarts(cfg, s, AfterOne(s, h.arp, env), h.action.bytes);
    } else {
      SameSwitch(cfg, s, t);
    }
  }

  /** The router's call for a message starts. */
  lemma CallStarts(cfg: Config, s: Net, s': Net, bytes: seq<u8>)
    requires SwitchSide(cfg, s) && s' == s.(arp := s'.arp, handled := s.handled + 1, envs := s'.envs)
    requires s.envs <= s'.envs
    ensures var t := Switching(cfg, s', SC.Start(cfg.port, bytes), Some(s.handled));
            && SwitchSide(cfg, t) && Grows(s, t) && t.inbox == s.inbox
            && t == s'.(sw := t.sw, causes := t.causes, inbox := t.inbox, origins := t.origins)
            && (t.causes == s.causes || t.causes == s.causes + [Some(s.handled)])
            && (forall pkt :: bytes == Wire(pkt) ==> HasCall(cfg, t, s.handled, pkt))
  {
    hide Switching, SC.Next, HasCall, SC.Inv, SC.LearnInv;
    SwitchingKeepsSwitch(cfg, s', SC.Start(cfg.port, bytes), Some(s.handled));
    StartEffect(cfg, s', bytes, s.handled);
  }

  lemma SameSwitch(cfg: Config, s: Net, t: Net)
    requires SwitchSide(cfg, s) && t.sw == s.sw && t.causes == s.causes && t.inbox == s.inbox && t.origins == s.origins
    ensures SwitchSide(cfg, t) && SC.Extends(s.sw, t.sw)
  {
  }

  /** Starting a call brings the router nothing yet. */
  lemma StartEffect(cfg: Config, s: Net, bytes: seq<u8>, idx: nat)
    requires cfg.port < s.sw.nports && |s.causes| == |s.sw.callers|
    ensures var t := Switching(cfg, s, SC.Start(cfg.port, bytes), Some(idx));
            && t.inbox == s.inbox && t.origins == s.origins
            && (t.causes == s.causes || t.causes == s.causes + [Some(idx)])
            && (forall pkt :: bytes == Wire(pkt) ==> HasCall(cfg, t, idx, pkt))
  {
    var t := Switching(cfg, s, SC.Start(cfg.port, bytes), Some(idx));
    forall pkt | bytes == Wire(pkt) ensures HasCall(cfg, t, idx, pkt) {
      PrintThenExtract(pkt);
      assert IsCall(cfg, t, idx, pkt, |s.sw.callers|);
    }
  }

  lemma HandlingKeepsRouter(cfg: Config, s: Net, env: Env, h: Handled, t: Net)
    requires SwitchSide(cfg, s) && RouterSide(cfg, s) && s.handled < |s.inbox| && !h.action.Dead?
    requires t == Apply(cfg, s, env, h)
    requires h == HandleMsg(cfg, s.arp, s.inbox[s.handled], env) && h.arp == Learn(s.arp, s.inbox[s.handled])
    requires Forwarded(cfg, s.inbox[s.handled]) == if h.action.ToWan? then Some(h.action.ip) else None
    requires h.action.ToSwitch? ==> IsFrame(h.action.bytes)
    ensures RouterSide(cfg, t)
  {
    hide Apply, HandleMsg, Forwarded, CallAt, SwitchSide, ExtractFrame, HasCall;
    ApplyEffect(cfg, s, env, h);
    ArpAfterNext(s.inbox, s.handled);
    ForwardsNext(cfg, s.inbox, s.handled);
    forall idx | 0 <= idx < t.handled ensures CallAt(cfg, t, idx) {
      if idx < s.handled {
        CallStays(cfg, s, t, idx);
      } else {
        assert CallFor(cfg, t, idx, h.action);
        NewCall(cfg, s.inbox, s.arp, t, idx, env, h.action);
      }
    }
  }

  lemma NewCall(cfg: Config, msgs: seq<Msg>, arp: ArpTable, t: Net, idx: nat, env: Env, action: Action)
    requires t.inbox == msgs && idx < |msgs| && arp == ArpAfter(msgs[..idx]) && idx < |t.envs| && t.envs[idx] == env
    requires action == HandleMsg(cfg, arp, msgs[idx], env).action && CallFor(cfg, t, idx, action)
    ensures CallAt(cfg, t, idx)
  {
  }

  lemma HandleNextKeeps(cfg: Config, s: Net, env: Env)
    requires Inv(cfg, s) && s.handled < |s.inbox|
    ensures Inv(cfg, HandleNext(cfg, s, env)) && Grows(s, HandleNext(cfg, s, env))
  {
    var msg := s.inbox[s.handled];
    var h := HandleMsg(cfg, s.arp, msg, env);
    HandlingLearns(cfg, s.arp, msg, env);
    HandlingForwards(cfg, s.arp, msg, env);
    HandlingPrints(cfg, s.arp, msg, env);
    hide HandleMsg, Forwarded, IsFrame, Learn, SwitchSide, RouterSide, WanSide, ReplySide, Grows;
    if h.action.Dead? {
      assert HandleNext(cfg, s, env) == s.(routerAlive := false);
      DeadKeeps(cfg, s);
    } else {
      var t := Apply(cfg, s, env, h);
      hide Apply;
      ApplyEffect(cfg, s, env, h);
      HandlingKeepsRouter(cfg, s, env, h, t);
      WanSideStays(cfg, s, t);
      HistoriesGrow(s, t);
      ReplySideStays(s, t);
    }
  }

  lemma HistoriesGrow(s: Net, t: Net)
    requires Grows(s, t)
    ensures s.inbox <= t.inbox && s.toWan <= t.toWan && s.sent <= t.sent
  {
  }

  lemma WanSideStays(cfg: Config, s: Net, t: Net)
    requires WanSide(cfg, s) && s.toWan <= t.toWan && t.sent == s.sent && t.tunnel == s.tunnel && t.wan == s.wan
    ensures WanSide(cfg, t)
  {
    PacketsPrefix(s.toWan, t.toWan, s.sent);
  }

  lemma DeadKeeps(cfg: Config, s: Net)
    requires Inv(cfg, s)
    ensures Inv(cfg, s.(routerAlive := false)) && Grows(s, s.(routerAlive := false))
  {
    var t := s.(routerAlive := false);
    RouterSideStays(cfg, s, t);
    ReplySideStays(s, t);
  }

  lemma {:induction false} PacketsPrefix(a: seq<(nat, Packet)>, b: seq<(nat, Packet)>, n: nat)
    requires a <= b && n <= |a|
    ensures Packets(a, n) == Packets(b, n)
  {
    if n > 0 {
      PacketsPrefix(a, b, n - 1);
    }
  }

  lemma SendNextKeeps(cfg: Config, s: Net)
    requires Inv(cfg, s) && s.wan.alive && s.sent < |s.toWan|
    ensures Inv(cfg, SendNext(cfg, s)) && Grows(s, SendNext(cfg, s))
  {
    hide SendNext, SwitchSide, RouterSide, WanSide, ReplySide;
    var t := SendNext(cfg, s);
    SendTouchesWan(cfg, s);
    SendKeepsWan(cfg, s);
    SameSwitch(cfg, s, t);
    RouterSideStays(cfg, s, t);
    ReplySideStays(s, t);
  }

  lemma SendTouchesWan(cfg: Config, s: Net)
    requires s.sent < |s.toWan|
    ensures var t := SendNext(cfg, s);
            t == s.(wan := t.wan, sent := s.sent + 1, tunnel := t.tunnel)
  {
  }

  lemma SendKeepsWan(cfg: Config, s: Net)
    requires WanSide(cfg, s) && s.wan.alive && s.sent < |s.toWan|
    ensures WanSide(cfg, SendNext(cfg, s))
  {
    hide Wan.Outbound, Nat.Insert, Nat.After, Masqueraded, Packets;
    SentNext(s.toWan, s.sent);
    OutboundEffect(s.wan, cfg, s.toWan[s.sent].1);
  }

  lemma SentNext(toWan: seq<(nat, Packet)>, n: nat)
    requires n < |toWan|
    ensures Nat.After(Packets(toWan, n + 1)) == Nat.Insert(Nat.After(Packets(toWan, n)), toWan[n].1)
  {
    var sent := Packets(toWan, n + 1);
    assert sent[..n] == Packets(toWan, n);
  }

  lemma OutboundEffect(w: Wan.WanState, cfg: Config, p: Packet)
    requires w.alive
    ensures var (w', out) := Wan.Outbound(w, cfg.wanIp, p);
            && w'.table == Nat.Insert(w.table, p)
            && (w'.alive ==> out.Some? && Masqueraded(cfg, p, out.value))
  {
    hide Rewritten, Masquerade;
    Wan.LeavesMasqueraded(w, cfg.wanIp, p);
  }

  lemma ReceiveKeeps(cfg: Config, s: Net, bytes: seq<u8>)
    requires Inv(cfg, s) && s.wan.alive
    ensures Inv(cfg, Receive(s, bytes)) && Grows(s, Receive(s, bytes))
  {
    hide ReplySide;
    InboundEffect(s.wan, bytes);
    RouterSideStays(cfg, s, Receive(s, bytes));
    ReceiveBrings(cfg, s, bytes);
    ReceiveAnswers(cfg, s, bytes);
  }

  /** What the WAN hands to the router answers a packet sent before. */
  lemma ReceiveAnswers(cfg: Config, s: Net, bytes: seq<u8>)
    requires WanSide(cfg, s) && ReplySide(s) && s.wan.alive
    ensures ReplySide(Receive(s, bytes))
  {
    hide Wan.Inbound, Nat.After, Wan.Completes, Wan.SentBackTo, ReplySide, Nat.IsReplyTo;
    var t := Receive(s, bytes);
    ReplySideStays(s, t.(inbox := s.inbox));
    if Wan.Inbound(s.wan, bytes).1.Some? {
      var q := Wan.Inbound(s.wan, bytes).1.value;
      var sent := Packets(s.toWan, s.sent);
      Wan.OnlyCompletedPass(s.wan, bytes);
      var p :| Wan.Completes(s.wan, bytes, p);
      Wan.OnlyRepliesPass(s.wan, sent, bytes, p);
      var w := LastAnswered(sent, p);
      assert Nat.IsReplyTo(p, s.toWan[w].1) && Wan.SentBackTo(p, q, s.toWan[w].1.header.src);
      assert Answers(q, s.toWan[w].1);
      OneMoreMessage(s, t, q);
    } else {
      assert t.(inbox := s.inbox) == t;
    }
  }

  lemma OneMoreMessage(s: Net, t: Net, q: Packet)
    requires ReplySide(t.(inbox := s.inbox)) && Solicited(t, q) && t.inbox == s.inbox + [FromWan4(q)]
    ensures ReplySide(t)
  {
    hide Answers;
    forall idx | 0 <= idx < |t.inbox| && t.inbox[idx].FromWan4? ensures Solicited(t, t.inbox[idx].ip) {
      if idx < |s.inbox| {
        assert Solicited(t.(inbox := s.inbox), s.inbox[idx].ip);
        var w :| 0 <= w < t.sent && w < |t.toWan| && Answers(s.inbox[idx].ip, t.toWan[w].1);
      }
    }
  }

  lemma {:induction false} LastAnswered(sent: seq<Packet>, p: Packet) returns (w: nat)
    requires exists i :: 0 <= i < |sent| && Nat.IsReplyTo(p, sent[i])
    ensures Wan.AnswersLast(sent, w, p)
  {
    var n := |sent| - 1;
    if Nat.IsReplyTo(p, sent[n]) {
      w := n;
    } else {
      w := LastAnswered(sent[..n], p);
    }
  }

  lemma ReceiveBrings(cfg: Config, s: Net, bytes: seq<u8>)
    requires OriginsMatch(cfg, s)
    ensures OriginsMatch(cfg, Receive(s, bytes))
  {
    var t := Receive(s, bytes);
    forall idx | 0 <= idx < |t.origins| && t.origins[idx].Some? ensures BroughtBy(t, idx, t.origins[idx].value) {
      assert BroughtBy(s, idx, s.origins[idx].value);
    }
    forall i | 0 <= i < |t.sw.callers| ensures multiset(t.origins)[Some(i)] == multiset(s.origins)[Some(i)] {
      SnocCount(s.origins, None, Some(i));
    }
  }

  lemma InboundEffect(w: Wan.WanState, bytes: seq<u8>)
    requires w.alive
    ensures Wan.Inbound(w, bytes).0.table == w.table && (Wan.Inbound(w, bytes).0.alive ==> w.alive)
  {
  }

  lemma NextKeeps(cfg: Config, s: Net, e: Event)
    requires Inv(cfg, s)
    ensures Inv(cfg, Next(cfg, s, e)) && Grows(s, Next(cfg, s, e))
  {
    hide Inv, Switching, HandleNext, SendNext, Receive, RouterCanStep;
    StaysTheSame(cfg, s);
    match e
    case Connect => SwitchingKeeps(cfg, s, SC.Connect);
    case Call(port, bytes) => SwitchingKeeps(cfg, s, SC.Start(port, bytes));
    case SwitchStep(call) => SwitchingKeeps(cfg, s, SC.Step(call));
    case RouterStep(env) => if RouterCanStep(s) { CanStepHasNext(s); HandleNextKeeps(cfg, s, env); }
    case WanSend => if s.wan.alive && s.sent < |s.toWan| { SendNextKeeps(cfg, s); }
    case WanReceive(bytes) => if s.wan.alive { ReceiveKeeps(cfg, s, bytes); }
  }

  lemma StaysTheSame(cfg: Config, s: Net)
    ensures Grows(s, s)
  {
  }

  lemma CanStepHasNext(s: Net)
    requires RouterCanStep(s)
    ensures s.handled < |s.inbox|
  {
  }

  lemma GrowsThrough(s: Net, u: Net, t: Net)
    requires Grows(s, u) && Grows(u, t)
    ensures Grows(s, t)
  {
  }

  lemma InitKeeps(cfg: Config)
    ensures Inv(cfg, Init(cfg))
  {
  }

  /**
   In every run, with the calls of the switch interleaved in any way: the ARP table and the NAT
   table stand for their histories, the MAC cache for the learning points of the calls, the WAN
   has been handed exactly the outside-bound messages, in order, and each message the router has
   handled has caused the one call of the switch that handling it asks for, with that frame, or
   none if it asks for none; no other message has caused any. The tunnel holds every sent packet
   with the WAN address for its source, and the router has got nothing from the WAN but replies.
   */
  lemma {:induction false} EveryRunKeeps(cfg: Config, s: Net, events: seq<Event>)
    requires Inv(cfg, s)
    ensures Inv(cfg, Exec(cfg, s, events)) && Grows(s, Exec(cfg, s, events))
  {
    hide Inv, Next;
    if events != [] {
      var u := Exec(cfg, s, events[..|events| - 1]);
      EveryRunKeeps(cfg, s, events[..|events| - 1]);
      NextKeeps(cfg, u, events[|events| - 1]);
      GrowsThrough(s, u, Exec(cfg, s, events));
    } else {
      StaysTheSame(cfg, s);
    }
  }
}
