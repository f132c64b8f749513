/**
 The router of oathgate-bridge/src/net/router.rs: ARP learning, local delivery,
 routing to the LAN through the switch, and forwarding to the WAN.
 */
module Router {
  import opened Bytes
  import opened Frame
  import opened Arp
  import opened Ipv4
  import Icmp
  import Subnet
  import Switch

  type ArpTable = map<IpAddr, Mac>

  datatype Config = Config(mac: Mac, port: nat, network: Subnet.Network, hasWan: bool, wanIp: u32)

  datatype Msg = FromLan(pkt: EthernetPacket) | FromWan4(ip: Packet)

  /** What the model leaves open: the random id of a reply and the UDP handler's answer. */
  datatype Env = Env(id: u16, udp: Outcome<seq<u8>>)

  /** What handling a message leads to; `Dead` is a panic of the router thread. */
  datatype Action = ToSwitch(bytes: seq<u8>) | ToWan(ip: Packet) | Drop | Dead

  datatype Handled = Handled(arp: ArpTable, action: Action)

  /** The protocol handlers: a payload to send back, nothing, an error or a panic. */
  function HandleProtocol(p: Packet, env: Env): (r: Outcome<seq<u8>>)
  {
    if p.header.protocol != ICMP && p.header.protocol != UDP then Ok([])
    else if !HasPayload(p) then Panic
    else if p.header.protocol == ICMP then Icmp.Handle(Payload(p))
    else if |Payload(p)| < 8 then Err
    else env.udp
  }

  /** The header of a reply, sent from the address the request was sent to. */
  function ReplyHeader(p: Packet, id: u16, length: nat): (r: Header)
  {
    Header(4, 5, (length % 0x1_0000 + 20) % 0x1_0000, id, 2, 0, 64, p.header.protocol, 0, p.header.dst, p.header.src)
  }

  /** Writes to the LAN: `lan` is the sender of a LAN message, which takes precedence over ARP. */
  function WriteLan(cfg: Config, arp: ArpTable, lan: Option<Mac>, dst: u32, bytes: seq<u8>): (r: Action)
  {
    var mac := if lan.Some? then lan else Get(arp, V4(dst));
    match mac
    case Some(m) => ToSwitch(FrameBytes(EthernetFrame(m, cfg.mac, IPv4)) + bytes)
    case None => Drop
  }

  /** `handle_local_ipv4` and what follows it. */
  function HandleLocal(cfg: Config, arp: ArpTable, lan: Option<Mac>, p: Packet, env: Env): (r: Action)
  {
    match HandleProtocol(p, env)
    case Ok(reply) =>
      if reply == [] then Drop
      else if |reply| > Icmp.BUF_SIZE then Dead
      else
        var h := ReplyHeader(p, env.id, |reply|);
        WriteLan(cfg, arp, lan, h.dst, PrintHeader(h, Zeros(20) + reply))
    case Err => Drop
    case Panic => Dead
  }

  predicate IsLocal(cfg: Config, ip: u32)
  {
    cfg.network.ip == ip || ip == Subnet.MAX_IP
  }

  /** `route_ip4` and `handle_action`. */
  function RouteIp4(cfg: Config, arp: ArpTable, lan: Option<Mac>, p: Packet, env: Env): (r: Action)
  {
    var dst := p.header.dst;
    if IsLocal(cfg, dst) && (cfg.network.Contains(dst) || dst == Subnet.MAX_IP) then HandleLocal(cfg, arp, lan, p, env)
    else if cfg.network.Contains(dst) then WriteLan(cfg, arp, lan, dst, p.data)
    else if cfg.hasWan then ToWan(p)
    else Drop
  }

  /** The address binding an ARP message teaches. */
  function Binding(msg: Msg): (r: Option<(IpAddr, Mac)>)
  {
    if msg.FromLan? && msg.pkt.frame.ethertype == ARP && ParseArp(msg.pkt.payload).Ok? then
      var a := ParseArp(msg.pkt.payload).value;
      Some((a.spa, a.sha))
    else None
  }

  function HandleArp(cfg: Config, arp: ArpTable, src: Mac, payload: seq<u8>): (r: Handled)
  {
    match ParseArp(payload)
    case Ok(a) =>
      Handled(arp[a.spa := a.sha],
              if a.tpa.V4? && IsLocal(cfg, a.tpa.ip)
              then ToSwitch(FrameBytes(EthernetFrame(src, cfg.mac, ARP)) + ArpBytes(Reply(a, cfg.mac)))
              else Drop)
    case Err => Handled(arp, Drop)
    case Panic => Handled(arp, Dead)
  }

  /** One message of the router thread. */
  function HandleMsg(cfg: Config, arp: ArpTable, msg: Msg, env: Env): (r: Handled)
  {
    match msg
    case FromLan(pkt) =>
      (match pkt.frame.ethertype
       case ARP => HandleArp(cfg, arp, pkt.frame.src, pkt.payload)
       case IPv4 =>
         (match Parse(pkt.payload)
          case Ok(p) => Handled(arp, RouteIp4(cfg, arp, Some(pkt.frame.src), p, env))
          case Err => Handled(arp, Drop)
          case Panic => Handled(arp, Dead))
       case IPv6 => Handled(arp, Drop))
    case FromWan4(p) => Handled(arp, RouteIp4(cfg, arp, None, p, env))
  }

  class RouterThread {
    const cfg: Config
    const lan: Switch.VirtioSwitch
    var arp: ArpTable
    var alive: bool
    /** Packets written to the WAN handle. */
    var forwarded: seq<Packet>

    constructor (cfg: Config, lan: Switch.VirtioSwitch)
      ensures this.cfg == cfg && this.lan == lan && arp == map[] && alive && forwarded == []
    {
      this.cfg, this.lan := cfg, lan;
      arp, alive, forwarded := map[], true, [];
    }

    /**
     `run` for one message: the ARP table and the action are those of `HandleMsg`, and a
     frame for the LAN goes through the switch from the router's port.
     */
    method Handle(msg: Msg, env: Env)
      requires alive
      modifies this, lan
      ensures var h := HandleMsg(cfg, old(arp), msg, env);
              && arp == h.arp && (alive <==> !h.action.Dead?)
              && forwarded == old(forwarded) + (if h.action.ToWan? then [h.action.ip] else [])
              && (!h.action.ToSwitch? ==> lan.ports == old(lan.ports) && lan.cache == old(lan.cache))
              && (h.action.ToSwitch? ==>
                    Switched(old(lan.ports), old(lan.cache), lan.ports, lan.cache, cfg.port, h.action.bytes))
    {
      var action := Route(msg, env);
      Perform(action);
    }

    /** Learns from the message and decides what to do about it. */
    method Route(msg: Msg, env: Env) returns (action: Action)
      modifies this
      ensures Handled(arp, action) == HandleMsg(cfg, old(arp), msg, env)
      ensures alive == old(alive) && forwarded == old(forwarded)
    {
      match msg
      case FromWan4(p) => action := RouteIpv4(None, p, env);
      case FromLan(pkt) =>
        match pkt.frame.ethertype
        case ARP => action := LearnArp(pkt.frame.src, pkt.payload);
        case IPv6 => action := Drop;
        case IPv4 =>
          var parsed := Parse(pkt.payload);
          if parsed.Ok? {
            action := RouteIpv4(Some(pkt.frame.src), parsed.value, env);
          } else {
            action := if parsed.Err? then Drop else Dead;
          }
    }

    method Perform(action: Action)
      modifies this, lan
      ensures arp == old(arp)
      ensures alive <==> old(alive) && !action.Dead?
      ensures forwarded == old(forwarded) + (if action.ToWan? then [action.ip] else [])
      ensures !action.ToSwitch? ==> lan.ports == old(lan.ports) && lan.cache == old(lan.cache)
      ensures action.ToSwitch? ==>
                Switched(old(lan.ports), old(lan.cache), lan.ports, lan.cache, cfg.port, action.bytes)
    {
      match action
      case ToSwitch(bytes) => var ok := lan.ProcessFrame(cfg.port, bytes);
      case ToWan(ip) => forwarded := forwarded + [ip];
      case Drop =>
      case Dead => alive := false;
    }

    method RouteIpv4(src: Option<Mac>, p: Packet, env: Env) returns (action: Action)
      ensures action == RouteIp4(cfg, arp, src, p, env)
    {
      var dst := p.header.dst;
      if cfg.network.Contains(dst) || dst == Subnet.MAX_IP {
        if IsLocal(cfg, dst) {
          action := HandleLocalIpv4(src, p, env);
        } else {
          action := WriteLan(cfg, arp, src, dst, p.data);
        }
      } else {
        action := if cfg.hasWan then ToWan(p) else Drop;
      }
    }

    /** Runs the protocol handler and prints a header in front of its reply. */
    method HandleLocalIpv4(src: Option<Mac>, p: Packet, env: Env) returns (action: Action)
      ensures action == HandleLocal(cfg, arp, src, p, env)
    {
      var reply: Outcome<seq<u8>>;
      if p.header.protocol == ICMP && HasPayload(p) {
        reply := Icmp.HandleProtocol(Payload(p));
      } else {
        reply := HandleProtocol(p, env);
      }
      if reply.Panic? || (reply.Ok? && |reply.value| > Icmp.BUF_SIZE) {
        action := Dead;
      } else if reply.Err? || reply.value == [] {
        action := Drop;
      } else {
        var rpkt := Zeros(20) + reply.value;
        var hdr := ReplyHeader(p, env.id, |reply.value|);
        rpkt := HeaderAsBytes(hdr, rpkt);
        action := WriteLan(cfg, arp, src, hdr.dst, rpkt);
      }
    }

    method LearnArp(src: Mac, payload: seq<u8>) returns (action: Action)
      modifies this
      ensures Handled(arp, action) == HandleArp(cfg, old(arp), src, payload)
      ensures alive == old(alive) && forwarded == old(forwarded)
    {
      var parsed := ParseArp(payload);
      match parsed
      case Err => action := Drop;
      case Panic => action := Dead;
      case Ok(a) =>
        arp := arp[a.spa := a.sha];
        if a.tpa.V4? && IsLocal(cfg, a.tpa.ip) {
          ParseThenPrint(payload);
          var reply := Reply(a, cfg.mac);
          var printed := AsBytes(reply, Zeros(Size(a)));
          var rpkt := printed.value;
          assert rpkt == ArpBytes(reply);
          action := ToSwitch(FrameBytes(EthernetFrame(src, cfg.mac, ARP)) + rpkt);
        } else {
          action := Drop;
        }
    }
  }

  /** The effect of `Switch.Process` on the devices and the cache. */
  predicate Switched(ports: seq<seq<EthernetPacket>>, cache: Switch.Cache,
                     ports': seq<seq<EthernetPacket>>, cache': Switch.Cache, port: nat, bytes: seq<u8>)
  {
    match Switch.Process(cache, |ports|, port, bytes)
    case Rejected => ports' == ports && cache' == cache
    case Processed(c, pkt, targets) => cache' == c && Switch.Delivered(ports, ports', pkt, targets)
  }

  //
  // The ARP table against the messages handled
  //

  function Learn(arp: ArpTable, msg: Msg): (r: ArpTable)
  {
    match Binding(msg)
    case Some((ip, mac)) => arp[ip := mac]
    case None => arp
  }

  function ArpAfter(msgs: seq<Msg>): (r: ArpTable)
  {
    if msgs == [] then map[] else Learn(ArpAfter(msgs[..|msgs| - 1]), msgs[|msgs| - 1])
  }

  lemma HandlingLearns(cfg: Config, arp: ArpTable, msg: Msg, env: Env)
    ensures HandleMsg(cfg, arp, msg, env).arp == Learn(arp, msg)
  {
  }

  /** Message `i` bound `ip` to `mac`, and no later one bound it to another MAC. */
  ghost predicate StaysBound(msgs: seq<Msg>, i: nat, ip: IpAddr, mac: Mac)
  {
    && i < |msgs| && Binding(msgs[i]) == Some((ip, mac))
    && forall j :: i < j < |msgs| && Binding(msgs[j]).Some? && Binding(msgs[j]).value.0 == ip ==>
         Binding(msgs[j]).value.1 == mac
  }

  lemma {:induction false} ArpIsLatest(msgs: seq<Msg>, i: nat, ip: IpAddr, mac: Mac)
    requires StaysBound(msgs, i, ip, mac)
    ensures Get(ArpAfter(msgs), ip) == Some(mac)
  {
    var n := |msgs| - 1;
    if i < n && !(Binding(msgs[n]).Some? && Binding(msgs[n]).value.0 == ip) {
      assert StaysBound(msgs[..n], i, ip, mac);
      ArpIsLatest(msgs[..n], i, ip, mac);
    }
  }

  //
  // What the router answers itself
  //

  /**
   An ARP packet is answered exactly when it asks for one of the router's addresses, whatever
   its operation says: to its sender, with the router's MAC for the address asked for.
   */
  lemma ArpIsAnsweredIff(cfg: Config, arp: ArpTable, pkt: EthernetPacket, a: ArpPacket, env: Env, act: Action)
    requires pkt.frame.ethertype == ARP && ParseArp(pkt.payload) == Ok(a)
    requires act == HandleMsg(cfg, arp, FromLan(pkt), env).action
    ensures act.ToSwitch? <==> a.tpa.V4? && IsLocal(cfg, a.tpa.ip)
    ensures act.ToSwitch? ==>
              && ExtractFrame(act.bytes).Some?
              && ExtractFrame(act.bytes).value.frame == EthernetFrame(pkt.frame.src, cfg.mac, ARP)
              && ParseArp(ExtractFrame(act.bytes).value.payload)
                 == Ok(a.(operation := 2, sha := cfg.mac, spa := a.tpa, tha := a.sha, tpa := a.spa))
  {
    if act.ToSwitch? {
      var answer := Reply(a, cfg.mac);
      PrintThenExtract(EthernetPacket(EthernetFrame(pkt.frame.src, cfg.mac, ARP), ArpBytes(answer)));
      ParseThenPrint(pkt.payload);
      PrintThenParse(answer);
    }
  }

  /** `q` is an unfragmented packet from `src` to `dst` with payload `body`, sent with the don't-fragment flag. */
  ghost predicate IpPacket(q: Packet, protocol: u8, src: u32, dst: u32, id: u16, body: seq<u8>)
  {
    && q.header.src == src && q.header.dst == dst && q.header.protocol == protocol && q.header.id == id
    && q.header.version == 4 && q.header.ihl == 5 && q.header.ttl == 64 && q.header.flags == 2
    && q.header.length == |q.data| == 20 + |body| && !MoreFragments(q) && q.header.fragOffset == 0
    && HasPayload(q) && Payload(q) == body && Be16At(q.data, 10) == HeaderSum(q.data) && Verifies(q.data[..20])
  }

  lemma PrintedReply(p: Packet, id: u16, reply: seq<u8>, out: seq<u8>)
    requires |reply| <= Icmp.BUF_SIZE
    requires out == PrintHeader(ReplyHeader(p, id, |reply|), Zeros(20) + reply)
    ensures Parse(out).Ok? && IpPacket(Parse(out).value, p.header.protocol, p.header.dst, p.header.src, id, reply)
  {
    hide PrintHeader, HeaderSum, Parse, IpPacket, Printed;
    var h := ReplyHeader(p, id, |reply|);
    PrintedFields(h, Zeros(20) + reply);
    AssembledParses(h, reply, out);
  }

  lemma AssembledParses(h: Header, body: seq<u8>, out: seq<u8>)
    requires h.version == 4 && h.ihl == 5 && h.flags == 2 && h.fragOffset == 0 && h.ttl == 64
    requires h.length == 20 + |body|
    requires Printed(h, Zeros(20) + body, out) && Be16At(out, 10) == HeaderSum(out)
    ensures Parse(out).Ok? && IpPacket(Parse(out).value, h.protocol, h.src, h.dst, h.id, body)
  {
    hide HeaderSum, ParseHeader, FlagsFrag, Verifies;
    PrintedParses(h, Zeros(20) + body, out);
    FlagsAreKept(h);
    HeaderVerifies(out);
    assert out[20..] == body;
  }

  lemma FlagsAreKept(h: Header)
    requires h.flags == 2 && h.fragOffset == 0
    ensures HighBits(h.flags, h.fragOffset) == 2
  {
  }

  /** The message carries the packet `p`; a LAN message comes from `lan`. */
  predicate Brings(msg: Msg, lan: Option<Mac>, p: Packet)
  {
    match msg
    case FromLan(pkt) => pkt.frame.ethertype == IPv4 && Parse(pkt.payload) == Ok(p) && lan == Some(pkt.frame.src)
    case FromWan4(ip) => ip == p && lan == None
  }

  /** The frame `bytes` is one from the router to `to` with a packet that answers `p`. */
  ghost predicate AnswersPacket(cfg: Config, bytes: seq<u8>, to: Mac, p: Packet, id: u16, reply: seq<u8>)
  {
    && ExtractFrame(bytes).Some?
    && var e := ExtractFrame(bytes).value;
       && e.frame == EthernetFrame(to, cfg.mac, IPv4) && Parse(e.payload).Ok?
       && IpPacket(Parse(e.payload).value, p.header.protocol, p.header.dst, p.header.src, id, reply)
  }

  /**
   A packet to the router itself is answered exactly when its protocol's handler has an answer and the
   MAC to send it to is known, which is a LAN sender's or the one bound to the packet's source: as a
   whole packet of that protocol, from the address it was sent to, to the address it came from.
   */
  lemma LocalIsAnsweredIff(cfg: Config, arp: ArpTable, msg: Msg, lan: Option<Mac>, p: Packet, env: Env, reply: seq<u8>,
                           act: Action)
    requires Brings(msg, lan, p) && IsLocal(cfg, p.header.dst) && HandleProtocol(p, env) == Ok(reply)
    requires |reply| <= 1540 && act == HandleMsg(cfg, arp, msg, env).action
    ensures var to := if lan.Some? then lan else Get(arp, V4(p.header.src));
            if to.Some? && reply != [] then act.ToSwitch? && AnswersPacket(cfg, act.bytes, to.value, p, env.id, reply)
            else act == Drop
  {
    var to := if lan.Some? then lan else Get(arp, V4(p.header.src));
    HandlerRuns(cfg, arp, msg, lan, p, env, reply, act);
    if to.Some? && reply != [] {
      var out := PrintHeader(ReplyHeader(p, env.id, |reply|), Zeros(20) + reply);
      PrintedReply(p, env.id, reply, out);
      PrintThenExtract(EthernetPacket(EthernetFrame(to.value, cfg.mac, IPv4), out));
    }
  }

  lemma HandlerRuns(cfg: Config, arp: ArpTable, msg: Msg, lan: Option<Mac>, p: Packet, env: Env, reply: seq<u8>,
                    act: Action)
    requires Brings(msg, lan, p) && IsLocal(cfg, p.header.dst) && HandleProtocol(p, env) == Ok(reply)
    requires |reply| <= 1540 && act == HandleMsg(cfg, arp, msg, env).action
    ensures var to := if lan.Some? then lan else Get(arp, V4(p.header.src));
            act == if to.None? || reply == [] then Drop
                   else ToSwitch(FrameBytes(EthernetFrame(to.value, cfg.mac, IPv4))
                                 + PrintHeader(ReplyHeader(p, env.id, |reply|), Zeros(20) + reply))
  {
    hide PrintHeader, HandleProtocol, FrameBytes, Parse;
  }

  /** What the handlers answer: ICMP (1) only an echo request (type 8), UDP (17) what its port's handler says. */
  lemma HandlersAnswer(p: Packet, env: Env)
    requires HasPayload(p)
    ensures var r := HandleProtocol(p, env);
            var n := |Payload(p)|;
            if p.header.protocol == 1 then
              if n < 4 then r == Err
              else if Payload(p)[0] != 8 then r == Ok([])
              else if n > 1540 then r == Panic
              else r.Ok? && |r.value| == n
            else if p.header.protocol == 17 then r == if n < 8 then Err else env.udp
            else r == Ok([])
  {
  }

  /**
   A message ends the router thread exactly if it is an ARP packet that ends inside its addresses, a LAN
   packet without room for the header that its first byte announces as short, or a packet to the router
   whose handler panics or answers more than the buffer holds.
   */
  lemma RouterEndsIff(cfg: Config, arp: ArpTable, msg: Msg, env: Env)
    ensures HandleMsg(cfg, arp, msg, env).action == Dead <==>
              match msg
              case FromWan4(p) => IsLocal(cfg, p.header.dst) && HandlerEnds(p, env)
              case FromLan(pkt) =>
                || (pkt.frame.ethertype == ARP && ParseArp(pkt.payload) == Panic)
                || (pkt.frame.ethertype == IPv4 && Parse(pkt.payload) == Panic)
                || (pkt.frame.ethertype == IPv4 && Parse(pkt.payload).Ok?
                    && IsLocal(cfg, Parse(pkt.payload).value.header.dst) && HandlerEnds(Parse(pkt.payload).value, env))
  {
    hide PrintHeader, ParseArp, Parse, FrameBytes, ArpBytes;
  }

  /** An ICMP or UDP packet without payload, an echo request of over 1540 bytes, or what a port's handler does. */
  predicate HandlerEnds(p: Packet, env: Env)
  {
    && p.header.protocol in {1, 17}
    && (|| !HasPayload(p)
        || (p.header.protocol == 1 && |Payload(p)| > 1540 && Payload(p)[0] == 8)
        || (p.header.protocol == 17 && |Payload(p)| >= 8
            && (env.udp == Panic || (env.udp.Ok? && |env.udp.value| > 1540))))
  }

  /**
   An echo request from the LAN to the router is answered to its sender: addresses swapped,
   header checksum in place, and the echo reply of `Icmp.EchoReplyAnswers` as payload.
   */
  lemma PingIsAnswered(cfg: Config, arp: ArpTable, pkt: EthernetPacket, p: Packet, env: Env, act: Action)
    requires pkt.frame.ethertype == IPv4 && Parse(pkt.payload) == Ok(p) && IsLocal(cfg, p.header.dst)
    requires p.header.protocol == ICMP && 8 <= |Payload(p)| <= Icmp.BUF_SIZE && Payload(p)[0] == Icmp.ECHO_REQUEST
    requires act == HandleMsg(cfg, arp, FromLan(pkt), env).action
    ensures act.ToSwitch? && AnswersPacket(cfg, act.bytes, pkt.frame.src, p, env.id, Icmp.EchoReply(Payload(p)))
  {
    hide AnswersPacket, Icmp.EchoReply, HandleMsg;
    assert HandleProtocol(p, env) == Ok(Icmp.EchoReply(Payload(p)));
    LocalIsAnsweredIff(cfg, arp, FromLan(pkt), Some(pkt.frame.src), p, env, Icmp.EchoReply(Payload(p)), act);
  }

  /**
   A LAN packet for another host of the subnet goes back to its own sender: it reaches
   the destination's MAC only if that is the MAC it came from.
   */
  lemma LanToLanGoesBack(cfg: Config, arp: ArpTable, pkt: EthernetPacket, p: Packet, env: Env, mac: Mac)
    requires pkt.frame.ethertype == IPv4 && Parse(pkt.payload) == Ok(p)
    requires cfg.network.Contains(p.header.dst) && !IsLocal(cfg, p.header.dst)
    requires Get(arp, V4(p.header.dst)) == Some(mac)
    ensures var a := HandleMsg(cfg, arp, FromLan(pkt), env).action;
            && a.ToSwitch? && ExtractFrame(a.bytes).Some?
            && ExtractFrame(a.bytes).value == EthernetPacket(EthernetFrame(pkt.frame.src, cfg.mac, IPv4), pkt.payload)
            && (ExtractFrame(a.bytes).value.frame.dst == mac <==> pkt.frame.src == mac)
  {
    PrintThenExtract(EthernetPacket(EthernetFrame(pkt.frame.src, cfg.mac, IPv4), p.data));
  }
}
