/**
 A host's first exchange with the outside: it asks for the router's MAC, sends a request and
 gets the reply, each call of the switch running to its end. Every step of this run meets the
 conditions of `ReturnPath.RoundTrip`.
 */
module FirstContact {
  import opened Bytes
  import opened Frame
  import opened Arp
  import opened Ipv4
  import opened Router
  import opened Network
  import opened ReturnPath
  import Bits
  import Nat
  import Subnet
  import Switch
  import SC = SwitchConcurrency
  import Wan

  /** A host `m` with an address of the subnet, a router with a WAN, a request and its reply. */
  ghost predicate Setting(cfg: Config, m: Mac, rq: Packet, rp: Packet)
  {
    && cfg.hasWan && cfg.mac != BROADCAST && m != BROADCAST && m != cfg.mac
    && HostAddress(cfg, rq.header.src) && OutsideAddress(cfg, rq.header.dst)
    && Parse(rq.data) == Ok(rq) && Editable(rq) && Nat.Key(rq, false).Ok?
    && Parse(rp.data) == Ok(rp) && Editable(rp) && Nat.Key(rp, true).Ok?
    && Wan.IsWhole(rp) && Nat.IsReplyTo(rp, rq)
  }

  /** A whole UDP packet of 28 bytes without checksums. */
  function Udp(src: u32, dst: u32, from: u8, to: u8): (r: seq<u8>)
    ensures |r| == 28
  {
    [0x45, 0, 0, 28, 0, 1, 0, 0, 64, UDP, 0, 0] + ToBe32(src) + ToBe32(dst) + [0, from, 0, to, 0, 8, 0, 0]
  }

  lemma UdpParses(src: u32, dst: u32, from: u8, to: u8) returns (p: Packet)
    ensures p.data == Udp(src, dst, from, to) && Parse(p.data) == Ok(p) && p.header.ihl == 5
    ensures Editable(p) && Wan.IsWhole(p)
    ensures p.header.protocol == UDP && p.header.src == src && p.header.dst == dst && |Payload(p)| == 8
    ensures Be16At(Payload(p), 0) == from && Be16At(Payload(p), 2) == to
  {
    hide ParseHeader, Udp, Be32At;
    var b := Udp(src, dst, from, to);
    UdpHeader(b, src, dst, from, to);
    p := Packet(Header(4, 5, 28, 1, 0, 0, 64, UDP, 0, src, dst), b);
    assert Payload(p) == b[20..];
  }

  lemma UdpHeader(b: seq<u8>, src: u32, dst: u32, from: u8, to: u8)
    requires b == Udp(src, dst, from, to)
    ensures ParseHeader(b) == Ok(Header(4, 5, 28, 1, 0, 0, 64, UDP, 0, src, dst))
    ensures b[20..] == [0, from, 0, to, 0, 8, 0, 0]
  {
    hide Be32At, ToBe32;
    assert b[12..16] == ToBe32(src) && b[16..20] == ToBe32(dst);
    Be32AtSlice(b, 12);
    Be32AtSlice(b, 16);
  }

  lemma Be32AtSlice(s: seq<u8>, i: nat)
    requires i + 4 <= |s|
    ensures Be32At(s, i) == Be32At(s[i..i + 4], 0)
  {
  }

  /** The address `a` lies in the /24 network of 192.168.1.1 exactly when it has the same first three bytes. */
  lemma InHomeNetwork(a: u32)
    ensures Subnet.Network(0xC0A8_0101, 0xFFFF_FF00).Contains(a) <==> a / 0x100 == 0xC0_A801
  {
    hide Bits.Pow2, Bits.And;
    var net := Subnet.Network(0xC0A8_0101, 0xFFFF_FF00);
    PowerOf8();
    Subnet.BlockEnds(net, 24);
    Subnet.ContainsIsInterval(net, 24, a);
  }

  lemma PowerOf8()
    ensures Bits.Pow2(8) == 0x100
  {
    assert Bits.Pow2(4) == 16;
  }

  /** The host 192.168.1.7 behind the router 192.168.1.1 asks 8.8.8.8 from UDP port 5, and is answered. */
  lemma SettingIsMet() returns (cfg: Config, m: Mac, rq: Packet, rp: Packet)
    ensures Setting(cfg, m, rq, rp) && cfg.network == Subnet.Network(0xC0A8_0101, 0xFFFF_FF00)
    ensures rq.header.src == 0xC0A8_0107 && rq.header.dst == 0x0808_0808 && rq.header.protocol == UDP
    ensures rp.header.src == 0x0808_0808 && rp.header.dst == cfg.wanIp
  {
    hide Parse, Udp, Payload, Be16At, Editable, Wan.IsWhole, Subnet.Network.Contains;
    cfg := Config([2, 0, 0, 0, 0, 9], 0, Subnet.Network(0xC0A8_0101, 0xFFFF_FF00), true, 0x0A00_0002);
    m := [2, 0, 0, 0, 0, 1];
    rq := UdpParses(0xC0A8_0107, 0x0808_0808, 5, 53);
    rp := UdpParses(0x0808_0808, 0x0A00_0002, 53, 5);
    InHomeNetwork(0xC0A8_0107);
    InHomeNetwork(0x0808_0808);
  }

  /** The host asks for the router's MAC. */
  function WhoHas(cfg: Config, m: Mac, a: u32): (r: ArpPacket)
  {
    ArpPacket(1, IPv4, 6, 4, 1, m, V4(a), BROADCAST, V4(cfg.network.ip))
  }

  function Question(cfg: Config, m: Mac, a: u32): (r: EthernetPacket)
  {
    EthernetPacket(EthernetFrame(BROADCAST, m, ARP), ArpBytes(WhoHas(cfg, m, a)))
  }

  function Answer(cfg: Config, m: Mac, a: u32): (r: EthernetPacket)
  {
    EthernetPacket(EthernetFrame(m, cfg.mac, ARP), ArpBytes(Reply(WhoHas(cfg, m, a), cfg.mac)))
  }

  function Request(cfg: Config, m: Mac, rq: Packet): (r: EthernetPacket)
  {
    EthernetPacket(EthernetFrame(cfg.mac, m, IPv4), rq.data)
  }

  function HostPort(cfg: Config): (r: nat)
  {
    cfg.port + 1
  }

  /** All the steps of a call of the switch, and some more. */
  function Steps(cfg: Config, i: nat): (r: seq<Event>)
  {
    StepsOf(i, cfg.port + 7)
  }

  function StepsOf(i: nat, n: nat): (r: seq<Event>)
  {
    if n == 0 then [] else [SwitchStep(i)] + StepsOf(i, n - 1)
  }

  //
  // A call that runs to its end
  //

  /** Only call `i` has run: it alone has brought messages, and only the switch has changed. */
  ghost predicate OnlyCall(s: Net, t: Net, i: nat)
  {
    && t == s.(sw := t.sw, inbox := t.inbox, origins := t.origins)
    && s.inbox <= t.inbox && s.origins <= t.origins && |t.inbox| - |s.inbox| == |t.origins| - |s.origins|
    && (forall idx :: |s.origins| <= idx < |t.origins| ==> t.origins[idx] == Some(i))
    && |t.sw.callers| == |s.sw.callers| && t.sw.nports == s.sw.nports
    && forall j :: 0 <= j < |t.sw.callers| && j != i ==> t.sw.callers[j] == s.sw.callers[j]
  }

  lemma CallMovesItself(s: SC.State, i: nat)
    requires i < |s.callers|
    ensures var t := SC.CallerStep(s, i);
            && |t.callers| == |s.callers| && t.nports == s.nports && |s.log| <= |t.log| <= |s.log| + 1
            && (|t.log| > |s.log| ==> t.log[|s.log|].0 == i)
            && forall j :: 0 <= j < |t.callers| && j != i ==> t.callers[j] == s.callers[j]
  {
  }

  lemma StepOfCall(cfg: Config, s: Net, i: nat)
    requires i < |s.sw.callers|
    ensures OnlyCall(s, Next(cfg, s, SwitchStep(i)), i)
    ensures Next(cfg, s, SwitchStep(i)).sw == SC.CallerStep(s.sw, i)
  {
    hide SC.CallerStep, Arrival;
    CallMovesItself(s.sw, i);
    ArrivalIs(cfg, s.sw, SC.CallerStep(s.sw, i));
  }

  lemma {:induction false} StepsOfCall(cfg: Config, s: Net, i: nat, n: nat)
    requires i < |s.sw.callers|
    ensures OnlyCall(s, Exec(cfg, s, StepsOf(i, n)), i)
    ensures Exec(cfg, s, StepsOf(i, n)).sw == SC.Solo(s.sw, i, n)
    decreases n
  {
    hide Next, SC.CallerStep;
    if n > 0 {
      var u := Next(cfg, s, SwitchStep(i));
      StepOfCall(cfg, s, i);
      StepsOfCall(cfg, u, i, n - 1);
      ExecOne(cfg, s, SwitchStep(i));
      ExecConcat(cfg, s, [SwitchStep(i)], StepsOf(i, n - 1));
    }
  }

  lemma {:induction false} CountAll<T>(q: seq<T>, x: T)
    requires forall i :: 0 <= i < |q| ==> q[i] == x
    ensures multiset(q)[x] == |q|
  {
    if q != [] {
      CountAll(q[1..], x);
      assert q == [q[0]] + q[1..];
    }
  }

  /** A call that has ended brings the router its frame if its targets say so. */
  lemma CallRuns(cfg: Config, s: SC.State, u: Net, t: Net, i: nat, port: nat, bytes: seq<u8>, p: Switch.Processed)
    requires Inv(cfg, u) && i == |s.callers| && s.nports == cfg.port + 2 && port < s.nports
    requires u.sw == SC.Next(s, SC.Start(port, bytes)) && t == Exec(cfg, u, Steps(cfg, i))
    requires p == Switch.Process(s.cache, s.nports, port, bytes) && p.Processed? && multiset(p.targets)[cfg.port] <= 1
    ensures Inv(cfg, t) && OnlyCall(u, t, i) && |t.sw.callers| == i + 1
    ensures t.sw.cache == p.cache && t.sw.callers[i].pc.Done? && t.sw.callers[i].pkt == p.pkt
    ensures t.sw.callers[i].port == port
    ensures t.inbox == u.inbox + (if cfg.port in p.targets then [FromLan(p.pkt)] else [])
    ensures |t.sw.callers| == |u.sw.callers| && forall j :: 0 <= j < i ==> t.sw.callers[j] == s.callers[j]
  {
    hide SC.Next, Next, Inv, Switch.Process, SC.Solo, OriginsMatch, Exec;
    ProcessedFrame(s, port, bytes, p);
    StartedCall(s, port, bytes);
    SwitchIsKept(cfg, u);
    StepsOfCall(cfg, u, i, cfg.port + 7);
    SoloEnds(s, port, bytes, cfg.port + 7, p, t.sw);
    EveryRunKeeps(cfg, u, Steps(cfg, i));
    SwitchIsKept(cfg, t);
    CallBrings(cfg, u, t, i, p.targets, p.pkt);
  }

  lemma ProcessedFrame(s: SC.State, port: nat, bytes: seq<u8>, p: Switch.Processed)
    requires p == Switch.Process(s.cache, s.nports, port, bytes) && p.Processed?
    ensures ExtractFrame(bytes) == Some(p.pkt)
  {
  }

  lemma SoloEnds(s: SC.State, port: nat, bytes: seq<u8>, n: nat, p: Switch.Processed, t: SC.State)
    requires port < s.nports && ExtractFrame(bytes).Some? && n == s.nports + 5
    requires |SC.Next(s, SC.Start(port, bytes)).callers| == |s.callers| + 1
    requires t == SC.Solo(SC.Next(s, SC.Start(port, bytes)), |s.callers|, n)
    requires p == Switch.Process(s.cache, s.nports, port, bytes)
    ensures |t.callers| == |s.callers| + 1 && t.callers[|s.callers|].pc.Done?
    ensures p == Switch.Processed(t.cache, t.callers[|s.callers|].pkt, t.callers[|s.callers|].sent)
  {
    hide SC.Next, Switch.Process;
    SC.SoloCallIsProcess(s, port, bytes);
  }

  lemma StartedCall(s: SC.State, port: nat, bytes: seq<u8>)
    requires port < s.nports && ExtractFrame(bytes).Some?
    ensures var u := SC.Next(s, SC.Start(port, bytes));
            && u == s.(callers := s.callers + [SC.Caller(port, ExtractFrame(bytes).value, SC.Check, 0, [])])
  {
  }

  lemma SwitchIsKept(cfg: Config, s: Net)
    requires Inv(cfg, s)
    ensures SC.Inv(s.sw) && OriginsMatch(cfg, s)
  {
  }

  lemma CallBrings(cfg: Config, u: Net, t: Net, i: nat, targets: seq<nat>, pkt: EthernetPacket)
    requires OriginsMatch(cfg, u) && OriginsMatch(cfg, t) && OnlyCall(u, t, i) && i < |u.sw.callers|
    requires u.sw.callers[i].sent == [] && t.sw.callers[i].sent == targets && t.sw.callers[i].pkt == pkt
    requires multiset(targets)[cfg.port] <= 1
    ensures t.inbox == u.inbox + (if cfg.port in targets then [FromLan(pkt)] else [])
  {
    var tail := t.origins[|u.origins|..];
    assert t.origins == u.origins + tail;
    CountAll(tail, Some(i));
    assert multiset(u.origins)[Some(i)] == 0;
    assert |tail| == multiset(targets)[cfg.port];
    if |tail| == 1 {
      assert cfg.port in multiset(targets);
      assert t.origins[|u.origins|] == Some(i);
      assert BroughtBy(t, |u.origins|, i);
    }
  }

  //
  // The calls of this run
  //

  /** The calls made so far have ended, and who made them. */
  ghost predicate Ended(s: Net, pkts: seq<EthernetPacket>, ports: seq<nat>)
  {
    && |s.sw.callers| == |pkts| == |ports|
    && forall k :: 0 <= k < |pkts| ==>
         s.sw.callers[k].pkt == pkts[k] && s.sw.callers[k].port == ports[k] && s.sw.callers[k].pc.Done?
  }

  lemma EndedMore(s: SC.State, u: Net, t: Net, pkts: seq<EthernetPacket>, ports: seq<nat>, pkt: EthernetPacket,
                  port: nat)
    requires |s.callers| == |pkts| == |ports| && |t.sw.callers| == |pkts| + 1
    requires forall k :: 0 <= k < |pkts| ==>
               s.callers[k].pkt == pkts[k] && s.callers[k].port == ports[k] && s.callers[k].pc.Done?
    requires forall k :: 0 <= k < |pkts| ==> t.sw.callers[k] == s.callers[k]
    requires t.sw.callers[|pkts|].pc.Done? && t.sw.callers[|pkts|].pkt == pkt && t.sw.callers[|pkts|].port == port
    ensures Ended(t, pkts + [pkt], ports + [port])
  {
  }

  /** A device's call, from its start to its end. */
  lemma DeviceCalls(cfg: Config, s: Net, u: Net, t: Net, pkts: seq<EthernetPacket>, ports: seq<nat>, port: nat,
                    pkt: EthernetPacket, p: Switch.Processed)
    requires Inv(cfg, s) && Ended(s, pkts, ports) && s.sw.nports == cfg.port + 2 && port < s.sw.nports
    requires u == Next(cfg, s, Call(port, Wire(pkt))) && t == Exec(cfg, u, Steps(cfg, |pkts|))
    requires p == Switch.Process(s.sw.cache, s.sw.nports, port, Wire(pkt)) && p.Processed? && p.pkt == pkt
    requires multiset(p.targets)[cfg.port] <= 1
    ensures Inv(cfg, u) && Inv(cfg, t) && Ended(t, pkts + [pkt], ports + [port]) && t.sw.cache == p.cache
    ensures t.sw.nports == cfg.port + 2
    ensures t == s.(sw := t.sw, causes := s.causes + [None], inbox := t.inbox, origins := t.origins)
    ensures t.inbox == s.inbox + (if cfg.port in p.targets then [FromLan(pkt)] else [])
  {
    NextKeeps(cfg, s, Call(port, Wire(pkt)));
    PrintThenExtract(pkt);
    CallBegins(cfg, s, port, Wire(pkt), None);
    assert u == Switching(cfg, s, SC.Start(port, Wire(pkt)), None);
    hide Next, Switching, SC.Next, Inv, Switch.Process;
    CallRuns(cfg, s.sw, u, t, |pkts|, port, Wire(pkt), p);
    EndedMore(s.sw, u, t, pkts, ports, pkt, port);
  }

  lemma CallBegins(cfg: Config, s: Net, port: nat, bytes: seq<u8>, cause: Option<nat>)
    requires port < s.sw.nports && ExtractFrame(bytes).Some?
    ensures var u := Switching(cfg, s, SC.Start(port, bytes), cause);
            && u == s.(sw := u.sw, causes := s.causes + [cause]) && u.sw == SC.Next(s.sw, SC.Start(port, bytes))
            && u.sw.nports == s.sw.nports && |u.sw.callers| == |s.sw.callers| + 1
  {
  }

  /** The router's call for message `s.handled`, from its start to its end. */
  lemma RouterCalls(cfg: Config, s: Net, env: Env, u: Net, t: Net, pkts: seq<EthernetPacket>, ports: seq<nat>,
                    pkt: EthernetPacket, arp: ArpTable, p: Switch.Processed)
    requires Inv(cfg, s) && Ended(s, pkts, ports) && s.sw.nports == cfg.port + 2
    requires s.routerAlive && s.handled < |s.inbox|
    requires HandleMsg(cfg, s.arp, s.inbox[s.handled], env) == Handled(arp, ToSwitch(Wire(pkt)))
    requires u == Next(cfg, s, RouterStep(env)) && t == Exec(cfg, u, Steps(cfg, |pkts|))
    requires p == Switch.Process(s.sw.cache, s.sw.nports, cfg.port, Wire(pkt)) && p.Processed? && p.pkt == pkt
    requires cfg.port !in p.targets
    ensures Inv(cfg, u) && Inv(cfg, t) && Ended(t, pkts + [pkt], ports + [cfg.port]) && t.sw.cache == p.cache
    ensures t == AfterOne(s, arp, env).(sw := t.sw, causes := s.causes + [Some(s.handled)])
    ensures t.sw.nports == cfg.port + 2 && |t.origins| == |s.origins|
  {
    var s' := AfterOne(s, arp, env);
    hide HandleMsg, SC.Next, Switch.Process, Switching;
    NextKeeps(cfg, s, RouterStep(env));
    PrintThenExtract(pkt);
    CallBegins(cfg, s', cfg.port, Wire(pkt), Some(s.handled));
    RouterStarts(cfg, s, env, arp, Wire(pkt));
    hide Next, Inv;
    assert multiset(p.targets)[cfg.port] == 0;
    CallRuns(cfg, s.sw, u, t, |pkts|, cfg.port, Wire(pkt), p);
    EndedMore(s.sw, u, t, pkts, ports, pkt, cfg.port);
    SameOrigins(cfg, u, t, |pkts|);
  }

  lemma RouterStarts(cfg: Config, s: Net, env: Env, arp: ArpTable, bytes: seq<u8>)
    requires s.routerAlive && s.handled < |s.inbox| && RouterIdle(s)
    requires HandleMsg(cfg, s.arp, s.inbox[s.handled], env) == Handled(arp, ToSwitch(bytes))
    ensures Next(cfg, s, RouterStep(env))
            == Switching(cfg, AfterOne(s, arp, env), SC.Start(cfg.port, bytes), Some(s.handled))
  {
    hide HandleMsg, Switching;
  }

  lemma SameOrigins(cfg: Config, u: Net, t: Net, i: nat)
    requires OnlyCall(u, t, i) && t.inbox == u.inbox
    ensures t.origins == u.origins
  {
  }

  //
  // The exchange
  //

  /** Connecting, the question, the router's answer. */
  function Asking(cfg: Config, m: Mac, a: u32, env: Env): (r: seq<Event>)
  {
    ([Connect] + ([Call(HostPort(cfg), Wire(Question(cfg, m, a)))] + Steps(cfg, 0)))
    + ([RouterStep(env)] + Steps(cfg, 1))
  }

  lemma ExecFirst(cfg: Config, s: Net, e: Event, rest: seq<Event>)
    ensures Exec(cfg, s, [e] + rest) == Exec(cfg, Next(cfg, s, e), rest)
  {
    ExecOne(cfg, s, e);
    ExecConcat(cfg, s, [e], rest);
  }

  lemma ConnectAdds(cfg: Config)
    ensures Next(cfg, Init(cfg), Connect) == Init(cfg).(sw := SC.State(cfg.port + 2, map[], [], [], []))
  {
  }

  /** The switch learns the host, and the broadcast is for the router once. */
  lemma QuestionIsProcessed(cfg: Config, m: Mac, a: u32)
    requires m != BROADCAST
    ensures var p := Switch.Process(map[], cfg.port + 2, HostPort(cfg), Wire(Question(cfg, m, a)));
            && p == Switch.Processed(map[m := HostPort(cfg)], Question(cfg, m, a),
                                     Switch.AllBut(cfg.port + 2, HostPort(cfg)))
            && cfg.port in p.targets && multiset(p.targets)[cfg.port] == 1
  {
    PrintThenExtract(Question(cfg, m, a));
    Switch.BroadcastOnceEach(cfg.port + 2, HostPort(cfg), cfg.port);
  }

  lemma QuestionIsHandled(cfg: Config, m: Mac, a: u32, env: Env)
    ensures HandleMsg(cfg, map[], FromLan(Question(cfg, m, a)), env)
            == Handled(map[V4(a) := m], ToSwitch(Wire(Answer(cfg, m, a))))
    ensures Binding(FromLan(Question(cfg, m, a))) == Some((V4(a), m))
  {
    PrintThenParse(WhoHas(cfg, m, a));
  }

  /** A frame for a cached destination goes to its port. */
  lemma UnicastIsProcessed(cache: Switch.Cache, n: nat, port: nat, pkt: EthernetPacket, to: nat)
    requires pkt.frame.dst != BROADCAST && pkt.frame.dst != pkt.frame.src && Get(cache, pkt.frame.dst) == Some(to)
    requires to < n
    ensures Switch.Process(cache, n, port, Wire(pkt)) == Switch.Processed(cache[pkt.frame.src := port], pkt, [to])
  {
    PrintThenExtract(pkt);
  }

  /** The router has been heard on its own port, and knows the host. */
  ghost predicate Ready(cfg: Config, s: Net, m: Mac, a: u32)
  {
    && Inv(cfg, s) && Ended(s, [Question(cfg, m, a), Answer(cfg, m, a)], [HostPort(cfg), cfg.port])
    && s.sw.nports == cfg.port + 2 && Get(s.sw.cache, m) == Some(HostPort(cfg))
    && Get(s.sw.cache, cfg.mac) == Some(cfg.port)
    && s.routerAlive && s.handled == 1 && s.inbox == [FromLan(Question(cfg, m, a))] && s.arp == map[V4(a) := m]
    && s.toWan == [] && s.sent == 0 && s.tunnel == [] && s.wan == Wan.WanState(map[], map[], true)
  }

  /** After the host's question the router knows the host, and the switch the router's port. */
  lemma AskingIsAnswered(cfg: Config, m: Mac, a: u32, env: Env)
    requires m != BROADCAST && m != cfg.mac && cfg.mac != BROADCAST
    ensures Ready(cfg, Exec(cfg, Init(cfg), Asking(cfg, m, a, env)), m, a)
  {
    hide Next, Switch.Process, HandleMsg, Inv, Exec, Question, Answer, Wire, Steps;
    var ask := Call(HostPort(cfg), Wire(Question(cfg, m, a)));
    var s0 := Next(cfg, Init(cfg), Connect);
    ExecFirst(cfg, Init(cfg), Connect, [ask] + Steps(cfg, 0));
    ExecFirst(cfg, s0, ask, Steps(cfg, 0));
    var s := Exec(cfg, Next(cfg, s0, ask), Steps(cfg, 0));
    ExecConcat(cfg, Init(cfg), [Connect] + ([ask] + Steps(cfg, 0)), [RouterStep(env)] + Steps(cfg, 1));
    ExecFirst(cfg, s, RouterStep(env), Steps(cfg, 1));
    ConnectAdds(cfg);
    InitKeeps(cfg);
    NextKeeps(cfg, Init(cfg), Connect);
    QuestionIsProcessed(cfg, m, a);
    DeviceCalls(cfg, s0, Next(cfg, s0, ask), s, [], [], HostPort(cfg), Question(cfg, m, a),
                Switch.Process(map[], cfg.port + 2, HostPort(cfg), Wire(Question(cfg, m, a))));
    AnswerRuns(cfg, s, m, a, env);
  }

  lemma AnswerRuns(cfg: Config, s: Net, m: Mac, a: u32, env: Env)
    requires m != BROADCAST && m != cfg.mac && cfg.mac != BROADCAST
    requires Inv(cfg, s) && Ended(s, [Question(cfg, m, a)], [HostPort(cfg)]) && s.sw.nports == cfg.port + 2
    requires s.sw.cache == map[m := HostPort(cfg)] && s.inbox == [FromLan(Question(cfg, m, a))]
    requires s.arp == map[] && s.handled == 0 && s.routerAlive
    requires s.toWan == [] && s.sent == 0 && s.tunnel == [] && s.wan == Wan.WanState(map[], map[], true)
    ensures Ready(cfg, Exec(cfg, Next(cfg, s, RouterStep(env)), Steps(cfg, 1)), m, a)
  {
    hide Next, Switch.Process, HandleMsg, Inv, Exec, Question, Wire, Steps, ArpBytes, WhoHas;
    QuestionIsHandled(cfg, m, a, env);
    UnicastIsProcessed(s.sw.cache, s.sw.nports, cfg.port, Answer(cfg, m, a), HostPort(cfg));
    var u := Next(cfg, s, RouterStep(env));
    RouterCalls(cfg, s, env, u, Exec(cfg, u, Steps(cfg, 1)), [Question(cfg, m, a)], [HostPort(cfg)], Answer(cfg, m, a),
                map[V4(a) := m], Switch.Process(s.sw.cache, s.sw.nports, cfg.port, Wire(Answer(cfg, m, a))));
  }

  /** The request's call, to its end: the router has it. */
  lemma RequestIsHeard(cfg: Config, s1: Net, m: Mac, a: u32, rq: Packet, s2: Net, t: Net)
    requires Ready(cfg, s1, m, a) && m != cfg.mac && cfg.mac != BROADCAST
    requires s2 == Next(cfg, s1, Call(HostPort(cfg), Wire(Request(cfg, m, rq)))) && t == Exec(cfg, s2, Steps(cfg, 2))
    ensures Inv(cfg, s2) && Inv(cfg, t) && Grows(s1, t)
    ensures Ended(t, [Question(cfg, m, a), Answer(cfg, m, a), Request(cfg, m, rq)],
                  [HostPort(cfg), cfg.port, HostPort(cfg)])
    ensures t == s1.(sw := t.sw, causes := t.causes, inbox := s1.inbox + [FromLan(Request(cfg, m, rq))],
                     origins := t.origins)
    ensures Get(t.sw.cache, m) == Some(HostPort(cfg)) && t.sw.nports == cfg.port + 2
  {
    hide Next, Switch.Process, Inv, Exec, Question, Answer, Wire, Steps, Grows;
    UnicastIsProcessed(s1.sw.cache, s1.sw.nports, HostPort(cfg), Request(cfg, m, rq), cfg.port);
    assert multiset([cfg.port])[cfg.port] == 1;
    var pkts, ports := [Question(cfg, m, a), Answer(cfg, m, a)], [HostPort(cfg), cfg.port];
    DeviceCalls(cfg, s1, s2, t, pkts, ports, HostPort(cfg), Request(cfg, m, rq),
                Switch.Process(s1.sw.cache, s1.sw.nports, HostPort(cfg), Wire(Request(cfg, m, rq))));
    NextKeeps(cfg, s1, Call(HostPort(cfg), Wire(Request(cfg, m, rq))));
    EveryRunKeeps(cfg, s2, Steps(cfg, 2));
    GrowsThrough(s1, s2, t);
  }

  lemma RequestIsPassedOn(cfg: Config, s: Net, m: Mac, rq: Packet, env: Env)
    requires s.routerAlive && s.handled == 1 && |s.inbox| == 2 && s.inbox[1] == FromLan(Request(cfg, m, rq))
    requires RouterIdle(s)
    requires Parse(rq.data) == Ok(rq) && cfg.hasWan && OutsideAddress(cfg, rq.header.dst)
    ensures Next(cfg, s, RouterStep(env)) == AfterOne(s, s.arp, env).(toWan := s.toWan + [(1, rq)])
  {
    assert HandleMsg(cfg, s.arp, s.inbox[1], env) == Handled(s.arp, ToWan(rq));
  }

  lemma WanSends(cfg: Config, s: Net, rq: Packet)
    requires Nat.Key(rq, false).Ok? && Editable(rq)
    requires s.toWan == [(1, rq)] && s.sent == 0 && s.tunnel == [] && s.wan == Wan.WanState(map[], map[], true)
    ensures var t := Next(cfg, s, WanSend);
            && t == s.(wan := t.wan, sent := 1, tunnel := t.tunnel) && |t.tunnel| == 1
            && t.wan.alive && t.wan.cache == map[]
  {
  }

  lemma EndedIsIdle(s: Net, pkts: seq<EthernetPacket>, ports: seq<nat>)
    requires Ended(s, pkts, ports)
    ensures RouterIdle(s)
  {
  }

  /** Router and WAN pass the request on. */
  lemma RequestIsSent(cfg: Config, m: Mac, a: u32, rq: Packet, rp: Packet, env: Env, s1: Net, t: Net, s3: Net)
    requires Setting(cfg, m, rq, rp) && a == rq.header.src && Ready(cfg, s1, m, a) && Inv(cfg, t) && Grows(s1, t)
    requires t == s1.(sw := t.sw, causes := t.causes, inbox := s1.inbox + [FromLan(Request(cfg, m, rq))],
                      origins := t.origins)
    requires RouterIdle(t) && s3 == Exec(cfg, t, [RouterStep(env)] + [WanSend])
    ensures Inv(cfg, s3) && Grows(s1, s3)
    ensures s3 == AfterOne(t, t.arp, env).(toWan := [(1, rq)], sent := 1, tunnel := s3.tunnel, wan := s3.wan)
    ensures |s3.tunnel| == 1 && s3.wan.alive && s3.wan.cache == map[]
  {
    hide Next, Inv, Exec, Question, Answer, Parse, Nat.Key, Grows;
    RequestIsPassedOn(cfg, t, m, rq, env);
    WanSends(cfg, Next(cfg, t, RouterStep(env)), rq);
    ExecFirst(cfg, t, RouterStep(env), [WanSend]);
    ExecOne(cfg, Next(cfg, t, RouterStep(env)), WanSend);
    EveryRunKeeps(cfg, t, [RouterStep(env)] + [WanSend]);
    GrowsThrough(s1, t, s3);
  }

  lemma WholeCompletes(w: Wan.WanState, rp: Packet)
    requires w.alive && Parse(rp.data) == Ok(rp) && Wan.IsWhole(rp)
    ensures Wan.Completes(w, rp.data, rp)
  {
  }

  lemma ReplyIsHandled(cfg: Config, arp: ArpTable, q: Packet, m: Mac, env: Env)
    requires HostAddress(cfg, q.header.dst) && Get(arp, V4(q.header.dst)) == Some(m)
    ensures HandleMsg(cfg, arp, FromWan4(q), env) == Handled(arp, ToSwitch(Wire(ToHost(cfg, m, q.data))))
  {
  }

  /** The router's call with the reply, to its end. */
  lemma ReplyIsSent(cfg: Config, s4: Net, m: Mac, q: Packet, env: Env, pkts: seq<EthernetPacket>, ports: seq<nat>,
                    s5: Net)
    requires Inv(cfg, s4) && Ended(s4, pkts, ports) && |pkts| == 3 && s4.sw.nports == cfg.port + 2 && s4.routerAlive
    requires Get(s4.sw.cache, m) == Some(HostPort(cfg)) && m != BROADCAST && m != cfg.mac
    requires s4.handled == 2 && |s4.inbox| == 3 && s4.inbox[2] == FromWan4(q)
    requires HostAddress(cfg, q.header.dst) && Get(s4.arp, V4(q.header.dst)) == Some(m)
    requires s5 == Exec(cfg, s4, [RouterStep(env)] + Steps(cfg, 3))
    ensures Inv(cfg, s5) && Ended(s5, pkts + [ToHost(cfg, m, q.data)], ports + [cfg.port])
    ensures s5.handled == 3 && s5.inbox == s4.inbox
  {
    hide Next, Switch.Process, Inv, Exec, HandleMsg, Wire, Steps, HostAddress;
    var f := ToHost(cfg, m, q.data);
    ReplyIsHandled(cfg, s4.arp, q, m, env);
    UnicastIsProcessed(s4.sw.cache, s4.sw.nports, cfg.port, f, HostPort(cfg));
    ExecFirst(cfg, s4, RouterStep(env), Steps(cfg, 3));
    RouterCalls(cfg, s4, env, Next(cfg, s4, RouterStep(env)), s5, pkts, ports, f, s4.arp,
                Switch.Process(s4.sw.cache, s4.sw.nports, cfg.port, Wire(f)));
  }

  /** Only call `k` carries frames from its source, so its port is where the source is. */
  lemma OneCallPerSource(s: SC.State, k: nat, mac: Mac, port: nat) returns (c: nat)
    requires SC.LearnInv(s) && k < |s.callers| && SC.CarriedBy(s.callers[k], mac, port) && s.callers[k].HasLearned()
    requires forall i :: 0 <= i < |s.callers| && s.callers[i].pkt.frame.src == mac ==> s.callers[i].port == port
    ensures SC.StaysLearned(s.learns, c, mac, port)
  {
    assert SC.HasPoint(s.learns, k);
    c :| 0 <= c < |s.learns| && s.learns[c].caller == k;
    assert forall j :: 0 <= j < |s.learns| ==> SC.LearnOfCall(s, s.learns[j]);
  }

  lemma NeverMoved(s: SC.State, k: nat, mac: Mac, port: nat)
    requires SC.LearnInv(s)
    requires forall i :: 0 <= i < |s.callers| && s.callers[i].pkt.frame.src == mac ==> s.callers[i].port == port
    ensures NoMoveSince(s, k, mac, port)
  {
    assert forall j :: 0 <= j < |s.learns| ==> SC.LearnOfCall(s, s.learns[j]);
  }

  /** The router's MAC settled on its port when it answered, and has not moved since. */
  lemma RouterHasSettled(s1: SC.State, s3: SC.State, mac: Mac, port: nat) returns (c: nat)
    requires SC.LearnInv(s1) && SC.LearnInv(s3) && s1.learns <= s3.learns
    requires |s1.callers| == 2 && SC.CarriedBy(s1.callers[1], mac, port) && s1.callers[1].HasLearned()
    requires s1.callers[0].pkt.frame.src == mac ==> s1.callers[0].port == port
    requires forall i :: 0 <= i < |s3.callers| && s3.callers[i].pkt.frame.src == mac ==> s3.callers[i].port == port
    ensures c < |s1.learns| && SC.StaysLearned(s3.learns, c, mac, port)
  {
    c := OneCallPerSource(s1, 1, mac, port);
    assert forall j :: 0 <= j < |s3.learns| ==> SC.LearnOfCall(s3, s3.learns[j]);
  }

  lemma HostStaysBound(msgs: seq<Msg>, ip: IpAddr, m: Mac, rq: EthernetPacket)
    requires |msgs| == 2 && Binding(msgs[0]) == Some((ip, m)) && rq.frame.ethertype == IPv4 && msgs[1] == FromLan(rq)
    ensures StaysBound(msgs, 0, ip, m)
  {
  }

  function Passing(cfg: Config, env: Env): (r: seq<Event>)
  {
    Steps(cfg, 2) + ([RouterStep(env)] + [WanSend])
  }

  function Frames(cfg: Config, m: Mac, rq: Packet): (r: seq<EthernetPacket>)
  {
    [Question(cfg, m, rq.header.src), Answer(cfg, m, rq.header.src), Request(cfg, m, rq)]
  }

  /** The ports of the exchange's calls: question, answer, request, reply. */
  function ExchangePorts(cfg: Config): (r: seq<nat>)
  {
    [HostPort(cfg), cfg.port, HostPort(cfg), cfg.port]
  }

  /** The way out: what the run is like once the WAN has sent the request. */
  ghost predicate Sent(cfg: Config, m: Mac, rq: Packet, s1: Net, s3: Net)
  {
    && Inv(cfg, s1) && Inv(cfg, s3) && Ready(cfg, s1, m, rq.header.src) && Grows(s1, s3)
    && Ended(s3, Frames(cfg, m, rq), [HostPort(cfg), cfg.port, HostPort(cfg)])
    && s3.sw.nports == cfg.port + 2 && Get(s3.sw.cache, m) == Some(HostPort(cfg)) && s3.routerAlive && s3.arp == s1.arp
    && s3.handled == 2 && s3.inbox == s1.inbox + [FromLan(Request(cfg, m, rq))]
    && s3.toWan == [(1, rq)] && s3.sent == 1 && |s3.tunnel| == 1 && s3.wan.alive && s3.wan.cache == map[]
  }

  lemma RequestGoesOut(cfg: Config, m: Mac, rq: Packet, rp: Packet, env: Env, s1: Net, s2: Net, s3: Net)
    requires Setting(cfg, m, rq, rp) && s1 == Exec(cfg, Init(cfg), Asking(cfg, m, rq.header.src, env))
    requires s2 == Next(cfg, s1, Call(HostPort(cfg), Wire(Request(cfg, m, rq))))
    requires s3 == Exec(cfg, s2, Passing(cfg, env))
    ensures Sent(cfg, m, rq, s1, s3)
  {
    hide Next, Inv, Exec, Question, Answer, Parse, Nat.Key, Grows, Wire, Steps, Asking, HostAddress, OutsideAddress,
      Editable, Nat.IsReplyTo;
    var a := rq.header.src;
    AskingIsAnswered(cfg, m, a, env);
    var t := Exec(cfg, s2, Steps(cfg, 2));
    ExecConcat(cfg, s2, Steps(cfg, 2), [RouterStep(env)] + [WanSend]);
    RequestIsHeard(cfg, s1, m, a, rq, s2, t);
    EndedIsIdle(t, [Question(cfg, m, a), Answer(cfg, m, a), Request(cfg, m, rq)],
                [HostPort(cfg), cfg.port, HostPort(cfg)]);
    RequestIsSent(cfg, m, a, rq, rp, env, s1, t, s3);
  }

  /** The way back: what the run is like once the router's call has ended. */
  lemma ReplyComesBack(cfg: Config, m: Mac, rq: Packet, rp: Packet, env: Env, s1: Net, s3: Net, s4: Net, s5: Net)
    requires Setting(cfg, m, rq, rp) && Sent(cfg, m, rq, s1, s3)
    requires s4 == Next(cfg, s3, WanReceive(rp.data)) && s5 == Exec(cfg, s4, [RouterStep(env)] + Steps(cfg, 3))
    ensures Wan.Completes(s3.wan, rp.data, rp) && Inv(cfg, s5) && s5.handled == 3 && |s5.inbox| == 3
    ensures s5.inbox[..2] == s3.inbox
    ensures exists q :: Ended(s5, Frames(cfg, m, rq) + [ToHost(cfg, m, q)], ExchangePorts(cfg))
  {
    hide Next, Exec, Question, Answer, Parse, Nat.Key, Grows, Wire, Steps, HostAddress, OutsideAddress, Readdress,
      Nat.IsReplyTo, SwitchSide, RouterSide, WanSide, Nat.Lookup;
    var q := Unmasquerade(rp, rq.header.src);
    WholeCompletes(s3.wan, rp);
    ReplyLooksUp(cfg, s3, 0, rq, rp);
    ReplyIsRouted(cfg, s3, rp.data, s4, rp, rq.header.src, q);
    hide Wan.Completes;
    var ports := [HostPort(cfg), cfg.port, HostPort(cfg)];
    ReplyIsSent(cfg, s4, m, q, env, Frames(cfg, m, rq), ports, s5);
    assert ports + [cfg.port] == ExchangePorts(cfg);
    assert Ended(s5, Frames(cfg, m, rq) + [ToHost(cfg, m, q.data)], ExchangePorts(cfg));
  }

  /** All calls have ended, and each source was on one port. */
  lemma SourcesKeepPorts(s: Net, pkts: seq<EthernetPacket>, ports: seq<nat>, mac: Mac, port: nat)
    requires Ended(s, pkts, ports) && forall i :: 0 <= i < |pkts| && pkts[i].frame.src == mac ==> ports[i] == port
    ensures forall i :: 0 <= i < |s.sw.callers| && s.sw.callers[i].pkt.frame.src == mac ==> s.sw.callers[i].port == port
    ensures forall idx :: CallEnded(s, idx)
  {
  }

  /**
   For every such host, request and reply: after the host has asked for the router's MAC, the
   request leaves masqueraded and the reply is enqueued once, on the host's port, with the
   host's MAC and address.
   */
  lemma FirstExchange(cfg: Config, m: Mac, rq: Packet, rp: Packet, env: Env, s1: Net, s2: Net, s3: Net, s4: Net,
                      s5: Net)
    requires Setting(cfg, m, rq, rp)
    requires s1 == Exec(cfg, Init(cfg), Asking(cfg, m, rq.header.src, env))
    requires s2 == Next(cfg, s1, Call(HostPort(cfg), Wire(Request(cfg, m, rq))))
    requires s3 == Exec(cfg, s2, Passing(cfg, env))
    requires s4 == Next(cfg, s3, WanReceive(rp.data)) && s5 == Exec(cfg, s4, [RouterStep(env)] + Steps(cfg, 3))
    ensures s3.tunnel == [Masquerade(rq, cfg.wanIp).data]
    ensures rq.header.ihl >= 5 ==> Rewritten(rq, s3.tunnel[0], cfg.wanIp, rq.header.dst)
    ensures Enqueues(s5, 2) == [Enqueued(HostPort(cfg), ToHost(cfg, m, Unmasquerade(rp, rq.header.src).data))]
  {
    hide *;
    RequestIsCarried(cfg, m, rq, rp);
    RequestGoesOut(cfg, m, rq, rp, env, s1, s2, s3);
    ReplyComesBack(cfg, m, rq, rp, env, s1, s3, s4, s5);
    var c := ExchangeSettles(cfg, m, rq, s1, s3, s5);
    ExchangeIsRoundTrip(cfg, m, rq, rp, env, s1, s2, s3, s4, s5, c);
  }

  lemma ExchangeIsRoundTrip(cfg: Config, m: Mac, rq: Packet, rp: Packet, env: Env, s1: Net, s2: Net, s3: Net, s4: Net,
                            s5: Net, c: nat)
    requires Setting(cfg, m, rq, rp) && Sent(cfg, m, rq, s1, s3)
    requires s1 == Exec(cfg, Init(cfg), Asking(cfg, m, rq.header.src, env))
    requires s2 == Next(cfg, s1, Call(HostPort(cfg), Wire(Request(cfg, m, rq))))
    requires s3 == Exec(cfg, s2, Passing(cfg, env))
    requires s4 == Next(cfg, s3, WanReceive(rp.data)) && s5 == Exec(cfg, s4, [RouterStep(env)] + Steps(cfg, 3))
    requires ExtractFrame(Wire(Request(cfg, m, rq))) == Some(Request(cfg, m, rq))
    requires CarriesRequest(cfg, Request(cfg, m, rq), m, rq)
    requires Wan.Completes(s3.wan, rp.data, rp) && |s5.inbox| == 3 && s5.handled == 3 && |s3.origins| == 2
    requires c < |s1.sw.learns| && SC.StaysLearned(s3.sw.learns, c, cfg.mac, cfg.port)
    requires NoMoveSince(s5.sw, 2, m, HostPort(cfg)) && CallEnded(s5, 2)
    requires StaysBound(s5.inbox[..2], 0, V4(rq.header.src), m)
    ensures s3.tunnel == [Masquerade(rq, cfg.wanIp).data]
    ensures rq.header.ihl >= 5 ==> Rewritten(rq, s3.tunnel[0], cfg.wanIp, rq.header.dst)
    ensures Enqueues(s5, 2) == [Enqueued(HostPort(cfg), ToHost(cfg, m, Unmasquerade(rp, rq.header.src).data))]
  {
    hide Next, Exec, Parse, Nat.Key, Wire, Steps, Asking, Passing, HostAddress, OutsideAddress, Readdress,
      Nat.IsReplyTo, Inv, Wan.Completes, Enqueues, CallEnded, StaysBound, SC.StaysLearned, NoMoveSince, Question,
      Answer, Grows, ToHost;
    var idx, w, q := RoundTrip(cfg, Asking(cfg, m, rq.header.src, env), HostPort(cfg), Wire(Request(cfg, m, rq)), rq,
                               Passing(cfg, env), rp.data, rp, [RouterStep(env)] + Steps(cfg, 3), m, 0, c,
                               s1, s2, s3, s4, s5, 2);
    assert w == 0;
  }

  /** Neither the router nor the host has moved, and the host is bound to its address. */
  lemma ExchangeSettles(cfg: Config, m: Mac, rq: Packet, s1: Net, s3: Net, s5: Net) returns (c: nat)
    requires Sent(cfg, m, rq, s1, s3) && Inv(cfg, s5) && m != cfg.mac && |s5.inbox| == 3 && s5.inbox[..2] == s3.inbox
    requires exists q :: Ended(s5, Frames(cfg, m, rq) + [ToHost(cfg, m, q)], ExchangePorts(cfg))
    ensures c < |s1.sw.learns| && SC.StaysLearned(s3.sw.learns, c, cfg.mac, cfg.port)
    ensures NoMoveSince(s5.sw, 2, m, HostPort(cfg)) && CallEnded(s5, 2)
    ensures StaysBound(s5.inbox[..2], 0, V4(rq.header.src), m) && |s3.origins| == 2
  {
    hide *;
    c := RouterSettles(cfg, m, rq, s1, s3);
    HostSettles(cfg, m, rq, s1, s3, s5);
  }

  lemma RouterSettles(cfg: Config, m: Mac, rq: Packet, s1: Net, s3: Net) returns (c: nat)
    requires Sent(cfg, m, rq, s1, s3) && m != cfg.mac
    ensures c < |s1.sw.learns| && SC.StaysLearned(s3.sw.learns, c, cfg.mac, cfg.port) && |s3.origins| == 2
  {
    hide RouterSide, WanSide, OriginsMatch, SC.Inv, ArpBytes, WhoHas;
    SourcesKeepPorts(s3, Frames(cfg, m, rq), [HostPort(cfg), cfg.port, HostPort(cfg)], cfg.mac, cfg.port);
    c := RouterHasSettled(s1.sw, s3.sw, cfg.mac, cfg.port);
    OriginsAreTwo(cfg, s3);
  }

  lemma HostSettles(cfg: Config, m: Mac, rq: Packet, s1: Net, s3: Net, s5: Net)
    requires Sent(cfg, m, rq, s1, s3) && Inv(cfg, s5) && m != cfg.mac && |s5.inbox| == 3 && s5.inbox[..2] == s3.inbox
    requires exists q :: Ended(s5, Frames(cfg, m, rq) + [ToHost(cfg, m, q)], ExchangePorts(cfg))
    ensures NoMoveSince(s5.sw, 2, m, HostPort(cfg)) && CallEnded(s5, 2)
    ensures StaysBound(s5.inbox[..2], 0, V4(rq.header.src), m)
  {
    hide Inv, Sent, Ended, CallEnded, NoMoveSince, StaysBound, Frames, ToHost, HostPort;
    var q :| Ended(s5, Frames(cfg, m, rq) + [ToHost(cfg, m, q)], ExchangePorts(cfg));
    HostIsStill(cfg, m, rq, s5, q);
    HostIsBound(cfg, m, rq, s1, s3);
  }

  lemma HostIsStill(cfg: Config, m: Mac, rq: Packet, s5: Net, q: seq<u8>)
    requires Inv(cfg, s5) && m != cfg.mac
    requires Ended(s5, Frames(cfg, m, rq) + [ToHost(cfg, m, q)], ExchangePorts(cfg))
    ensures NoMoveSince(s5.sw, 2, m, HostPort(cfg)) && CallEnded(s5, 2)
  {
    hide RouterSide, WanSide, OriginsMatch, SC.Inv, SC.LearnInv, Ended, CallEnded, NoMoveSince, ArpBytes, WhoHas;
    SourcesKeepPorts(s5, Frames(cfg, m, rq) + [ToHost(cfg, m, q)], ExchangePorts(cfg), m, HostPort(cfg));
    NeverMoved(s5.sw, 2, m, HostPort(cfg));
  }

  lemma HostIsBound(cfg: Config, m: Mac, rq: Packet, s1: Net, s3: Net)
    requires Sent(cfg, m, rq, s1, s3)
    ensures StaysBound(s3.inbox, 0, V4(rq.header.src), m)
  {
    hide Binding, Inv, Grows, Ended, StaysBound, Question;
    QuestionIsHandled(cfg, m, rq.header.src, Env(0, Err));
    HostStaysBound(s3.inbox, V4(rq.header.src), m, Request(cfg, m, rq));
  }

  lemma RequestIsCarried(cfg: Config, m: Mac, rq: Packet, rp: Packet)
    requires Setting(cfg, m, rq, rp)
    ensures m != cfg.mac
    ensures ExtractFrame(Wire(Request(cfg, m, rq))) == Some(Request(cfg, m, rq))
    ensures CarriesRequest(cfg, Request(cfg, m, rq), m, rq)
  {
    PrintThenExtract(Request(cfg, m, rq));
  }

  lemma OriginsAreTwo(cfg: Config, s: Net)
    requires Inv(cfg, s)
    ensures |s.origins| == |s.inbox|
  {
  }
}
