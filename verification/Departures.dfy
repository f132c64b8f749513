/**
 One input for each departure of the code from its intent: the failing side of the
 if-and-only-if results is met by real packets, messages and regions.
 */
module Departures {
  import opened Bytes
  import opened Frame
  import Checksum
  import Ipv4
  import Wan
  import Dhcp
  import Arp
  import Router
  import Subnet
  import Switch
  import VirtQueue
  import Vhost
  import Session
  import Fabrial

  const MAC_A: Mac := [2, 0, 0, 0, 0, 1]
  const MAC_B: Mac := [2, 0, 0, 0, 0, 2]

  //
  // Checksums and packets
  //

  /** Six bytes whose checksum is one too large, and is refused by an RFC 1071 receiver. */
  lemma ChecksumOfSixBytes()
    ensures var sum := Checksum.WordSum([0xFF, 0xFF, 0xFF, 0xFF, 0, 1]);
            Checksum.Carries(sum) && Checksum.FoldOnce(sum) == Checksum.Rfc1071(sum) + 1
  {
    var s: seq<u8> := [0xFF, 0xFF, 0xFF, 0xFF, 0, 1];
    assert s[2..] == [0xFF, 0xFF, 0, 1] && s[2..][2..] == [0, 1] && s[2..][2..][2..] == [];
    assert Checksum.WordSum(s) == 0x1_FFFF;
    Checksum.FoldOnceAgainstRfc1071(0x1_FFFF);
  }

  /** A header of zeros but for its first byte, length, id, fragment word and source; protocol 0 has no checksum. */
  function Blank(first: u8, size: nat, word: u16, id: u8, src: u8): (r: seq<u8>)
    requires size >= 20
    ensures |r| == size
  {
    [first, 0, 0, size % 0x100, 0, id] + ToBe16(word) + [0, 0, 0, 0, 0, 0, 0, src] + Zeros(size - 16)
  }

  lemma BlankParses(first: u8, size: nat, word: u16, id: u8, src: u8, p: Ipv4.Packet)
    requires first in {0x45, 0x46} && 24 <= size < 0x100
    requires p == Ipv4.Packet(p.header, Blank(first, size, word, id, src)) && Ipv4.ParseHeader(p.data) == Ok(p.header)
    ensures Ipv4.Parse(p.data) == Ok(p) && Ipv4.Agrees(p) && Ipv4.Editable(p)
    ensures p.header == Ipv4.Header(4, first % 16, size, id, word / 0x2000, word % 0x2000 * 8, 0, 0, 0, src, 0)
  {
    var b := p.data;
    assert b[0] == first && b[2] == 0 && b[3] == size && b[4] == 0 && b[5] == id;
    assert [b[6], b[7]] == ToBe16(word);
    assert forall k :: 8 <= k < size && k != 15 ==> b[k] == 0;
    assert b[15] == src && Be32At(b, 12) == src;
    assert Be16At(b, 6) == word;
  }

  lemma BlankHeader(first: u8, size: nat, word: u16, id: u8, src: u8) returns (p: Ipv4.Packet)
    requires first in {0x45, 0x46} && 24 <= size < 0x100
    ensures p.data == Blank(first, size, word, id, src)
    ensures Ipv4.Parse(p.data) == Ok(p) && Ipv4.Agrees(p) && Ipv4.Editable(p)
    ensures p.header == Ipv4.Header(4, first % 16, size, id, word / 0x2000, word % 0x2000 * 8, 0, 0, 0, src, 0)
  {
    var b := Blank(first, size, word, id, src);
    assert b[0] == first;
    p := Ipv4.Packet(Ipv4.ParseHeader(b).value, b);
    BlankParses(first, size, word, id, src, p);
  }

  /** A packet with options is damaged by a rewrite. */
  lemma OptionsPacket() returns (p: Ipv4.Packet)
    ensures Ipv4.Editable(p) && Ipv4.Agrees(p) && p.header.ihl == 6
    ensures Ipv4.Readdress(p, 1, 2).data[0] != p.data[0]
  {
    p := BlankHeader(0x46, 24, 0, 0, 0);
    Ipv4.OptionsAreDamaged(p, 1, 2);
  }

  /** A fragment is damaged by a rewrite, and its header does not read back as printed. */
  lemma OffsetPacket() returns (q: Ipv4.Packet)
    ensures Ipv4.Editable(q) && Ipv4.Agrees(q) && q.header.ihl == 5 && q.header.fragOffset == 8
    ensures Be16At(Ipv4.Readdress(q, 1, 2).data, 6) != Be16At(q.data, 6)
    ensures var r := Ipv4.ParseHeader(Ipv4.PrintHeader(q.header, q.data));
            r.Ok? && r.value.(checksum := q.header.checksum) != q.header
  {
    q := BlankHeader(0x45, 24, 1, 0, 0);
    Ipv4.OffsetIsDamaged(q, 1, 2);
    Ipv4.HeaderRoundTripIff(q.header, q.data);
  }

  /** A whole packet with a zero checksum is not restored by rewriting it back. */
  lemma UnsealedPacket() returns (p: Ipv4.Packet)
    ensures Ipv4.Editable(p) && Ipv4.Agrees(p) && p.header.ihl == 5 && p.header.fragOffset == 0
    ensures Ipv4.Editable(Ipv4.Readdress(p, 1, 2)) && Ipv4.Readdress(Ipv4.Readdress(p, 1, 2), 0, 0).data != p.data
  {
    p := BlankHeader(0x45, 24, 0, 0, 0);
    BlankSum(p.data);
    Ipv4.RewriteBackRestoresIff(p, 1, 2);
  }

  lemma BlankSum(b: seq<u8>)
    requires b == Blank(0x45, 24, 0, 0, 0)
    ensures Ipv4.HeaderSum(b) != 0
  {
    var front: seq<u8> := [0x45, 0, 0, 24];
    assert Splice(b[..20], 10, [0, 0]) == front + Zeros(16);
    Checksum.WordSumPadded(front, 16);
    assert front[2..] == [0, 24] && front[2..][2..] == [];
    assert Checksum.WordSum(front) == 0x4518;
  }

  /** A fragment that leaves a gap does not land at its place. */
  lemma GapDoesNotLand() returns (p: Ipv4.Packet)
    ensures Ipv4.HasPayload(p) && !Ipv4.Lands(p, 16, [7])
  {
    p := BlankHeader(0x45, 24, 0x2000, 1, 0);
  }

  /** Two senders' fragments with one id become one datagram of the first sender. */
  lemma TwoSendersOneDatagram(a: Ipv4.Packet, b: Ipv4.Packet, id: u16) returns (d: Ipv4.Packet)
    requires Wan.InOrder([a, b], id) && a.header.src != b.header.src
    ensures Wan.Exec(map[], [a, b]).outs == [Wan.Joined(d)] && d.header.src == a.header.src
    ensures Ipv4.HasPayload(a) && Ipv4.HasPayload(b)
    ensures Ipv4.HasPayload(d) && Ipv4.Payload(d) == Ipv4.Payload(a) + Ipv4.Payload(b)
  {
    hide Ipv4.PrintHeader, Wan.Reassemble, Wan.Partial, Ipv4.Finalize;
    var frags := [a, b];
    d := Wan.Datagram(frags);
    var none: Wan.Cache := map[];
    Wan.DatagramContents(frags, d, Wan.Concat(frags, 2));
    assert Wan.FragmentFits(frags, id, 0) && Wan.FragmentFits(frags, id, 1);
    assert Wan.Concat(frags, 2) == Ipv4.Payload(a) + Ipv4.Payload(b);
    Wan.CompletesFrom(none, frags, id, 0, []);
    assert frags[0..] + [] == frags;
  }

  /** Two sequences with one id: one after the other they are two datagrams, overlapping they end the thread. */
  lemma OverlappingSendersEndTheThread(a: seq<Ipv4.Packet>, b: seq<Ipv4.Packet>, id: u16)
    requires Wan.InOrder(a, id) && Wan.InOrder(b, id) && |a| == 2 && |b| == 2
    ensures !Wan.Exec(map[], [a[0], b[0], a[1], b[1]]).alive
    ensures Wan.Exec(map[], [a[0], a[1], b[0], b[1]])
            == Wan.Run(map[], [Wan.Joined(Wan.Datagram(a)), Wan.Joined(Wan.Datagram(b))], true)
  {
    assert Wan.HasHead(a) && Wan.HasHead(b);
    hide Wan.InOrder, Wan.Datagram, Wan.NoOverlap, Wan.Exec, Wan.Shuffles;
    var groups := [a, b];
    var mixed := [0, 1, 0, 1];
    TwoMixed(a, b);
    Wan.CutsIn(mixed[1..], 0);
    assert [0] + mixed[1..] == mixed;
    Wan.FromIdle([a[0], b[0], a[1], b[1]], mixed, groups, [0, 0], id);
    Wan.GroupsComplete(map[], groups, id);
    TwoInARow(a, b, id);
  }

  lemma TwoInARow(a: seq<Ipv4.Packet>, b: seq<Ipv4.Packet>, id: u16)
    requires Wan.InOrder(a, id) && Wan.InOrder(b, id) && |a| == 2 && |b| == 2
    ensures Wan.Flatten([a, b]) == [a[0], a[1], b[0], b[1]]
    ensures Wan.AsJoined(Wan.Datagrams([a, b], id)) == [Wan.Joined(Wan.Datagram(a)), Wan.Joined(Wan.Datagram(b))]
  {
    assert Wan.HasHead(a) && Wan.HasHead(b);
    hide Wan.InOrder, Wan.Datagram, Wan.AsJoined;
    var groups := [a, b];
    assert groups[1..] == [b] && groups[1..][1..] == [];
    assert Wan.Flatten([b]) == b;
    var rest: seq<Ipv4.Packet> := [Wan.Datagram(b)];
    assert Wan.Datagrams(groups[1..], id) == rest && Wan.Datagrams(groups, id) == [Wan.Datagram(a)] + rest;
    TwoJoined(Wan.Datagram(a), Wan.Datagram(b));
  }

  lemma TwoJoined(p: Ipv4.Packet, q: Ipv4.Packet)
    ensures Wan.AsJoined([p] + [q]) == [Wan.Joined(p), Wan.Joined(q)]
  {
    assert ([p] + [q])[1..] == [q] && [q][1..] == [];
    assert Wan.AsJoined([q]) == [Wan.Joined(q)];
  }

  lemma TwoMixed(a: seq<Ipv4.Packet>, b: seq<Ipv4.Packet>)
    requires |a| == 2 && |b| == 2
    ensures Wan.Shuffles([a[0], b[0], a[1], b[1]], [0, 1, 0, 1], [a, b], [0, 0])
  {
    assert Wan.Shuffles([], [], [a, b], [2, 2]);
    assert Wan.Advance([2, 1], 1) == [2, 2] && Wan.Shuffles([b[1]], [1], [a, b], [2, 1]);
    assert Wan.Advance([1, 1], 0) == [2, 1] && Wan.Shuffles([a[1], b[1]], [0, 1], [a, b], [1, 1]);
    assert Wan.Advance([1, 0], 1) == [1, 1] && Wan.Shuffles([b[0], a[1], b[1]], [1, 0, 1], [a, b], [1, 0]);
    assert Wan.Advance([0, 0], 0) == [1, 0];
  }

  /** Such senders exist: each packet is what its own bytes say. */
  lemma TwoSenders() returns (a: seq<Ipv4.Packet>, b: seq<Ipv4.Packet>)
    ensures |a| == 2 && |b| == 2 && a[0].header.src == a[1].header.src == 7 && b[0].header.src == b[1].header.src == 9
    ensures forall p :: p in a + b ==> Ipv4.Parse(p.data) == Ok(p)
    ensures Wan.InOrder(a, 1) && Wan.InOrder(b, 1) && Wan.InOrder([a[0], b[1]], 1)
    ensures !Wan.Exec(map[], [a[0], b[0], a[1], b[1]]).alive
  {
    hide Wan.InOrder, Wan.Exec, Blank, Ipv4.Parse, Ipv4.ParseHeader, Ipv4.Agrees, Ipv4.Editable;
    var a0 := BlankHeader(0x45, 28, 0x2000, 1, 7);
    var a1 := BlankHeader(0x45, 24, 1, 1, 7);
    var b0 := BlankHeader(0x45, 28, 0x2000, 1, 9);
    var b1 := BlankHeader(0x45, 24, 1, 1, 9);
    a, b := [a0, a1], [b0, b1];
    BlanksInOrder(a0, a1);
    BlanksInOrder(b0, b1);
    BlanksInOrder(a0, b1);
    OverlappingSendersEndTheThread(a, b, 1);
  }

  lemma BlanksInOrder(p: Ipv4.Packet, q: Ipv4.Packet)
    requires |p.data| == 28 && p.header.(src := 0) == Ipv4.Header(4, 5, 28, 1, 1, 0, 0, 0, 0, 0, 0)
    requires |q.data| == 24 && q.header.(src := 0) == Ipv4.Header(4, 5, 24, 1, 0, 8, 0, 0, 0, 0, 0)
    ensures Wan.InOrder([p, q], 1)
  {
    var frags := [p, q];
    assert Wan.Concat(frags, 0) == [] && Wan.Concat(frags, 1) == Ipv4.Payload(p);
    assert |Wan.Concat(frags, 1)| == 8 && |Wan.Concat(frags, 2)| == 12;
    assert Wan.FragmentFits(frags, 1, 0) && Wan.FragmentFits(frags, 1, 1);
  }

  //
  // Bridge
  //

  /** An address outside the pool is granted. */
  lemma StrayLease()
    ensures var s := Dhcp.Leases([1, 2], map[]);
            var msgs := [Dhcp.Msg(Dhcp.Request, MAC_A, Some(99))];
            && Dhcp.Valid(s) && Dhcp.Accounted(s, {1, 2})
            && Dhcp.ReplyTo(s, msgs, 0) == Dhcp.Ack(99) && !Dhcp.Accounted(Dhcp.State(s, msgs, 1), {1, 2})
  {
    var s := Dhcp.Leases([1, 2], map[]);
    var msgs := [Dhcp.Msg(Dhcp.Request, MAC_A, Some(99))];
    assert Dhcp.State(s, msgs, 0) == s;
    assert 99 in Dhcp.State(s, msgs, 1).leased;
  }

  /** A host that was never heard gets nothing, although two devices are connected. */
  lemma UnknownIsNotFlooded()
    ensures Switch.Targets(Switch.After([]), 2, 0, MAC_B) == []
  {
  }

  const CFG := Router.Config([2, 0, 0, 0, 0, 9], 0, Subnet.Network(1, 0), false, 0)

  /** A LAN packet for a host whose MAC is known goes back to its sender. */
  lemma PacketGoesBack(env: Router.Env) returns (p: Ipv4.Packet)
    ensures var pkt := EthernetPacket(EthernetFrame(CFG.mac, MAC_A, IPv4), p.data);
            var a := Router.HandleMsg(CFG, map[Arp.V4(0) := MAC_B], Router.FromLan(pkt), env).action;
            a.ToSwitch? && ExtractFrame(a.bytes).Some? && ExtractFrame(a.bytes).value.frame.dst == MAC_A
  {
    p := BlankHeader(0x45, 24, 0, 0, 0);
    var pkt := EthernetPacket(EthernetFrame(CFG.mac, MAC_A, IPv4), p.data);
    Router.LanToLanGoesBack(CFG, map[Arp.V4(0) := MAC_B], pkt, p, env, MAC_B);
    PrintThenExtract(EthernetPacket(EthernetFrame(MAC_A, CFG.mac, IPv4), p.data));
  }

  /** An ARP reply to the router is answered with an ARP reply. */
  lemma ReplyIsAnswered(env: Router.Env)
    ensures var a := Arp.ArpPacket(1, ARP_IPV4, 6, 4, 2, MAC_A, Arp.V4(5), CFG.mac, Arp.V4(1));
            var pkt := EthernetPacket(EthernetFrame(CFG.mac, MAC_A, ARP), Arp.ArpBytes(a));
            Router.HandleMsg(CFG, map[], Router.FromLan(pkt), env).action.ToSwitch?
  {
    var a := Arp.ArpPacket(1, ARP_IPV4, 6, 4, 2, MAC_A, Arp.V4(5), CFG.mac, Arp.V4(1));
    var pkt := EthernetPacket(EthernetFrame(CFG.mac, MAC_A, ARP), Arp.ArpBytes(a));
    Arp.PrintThenParse(a);
    Router.ArpIsAnsweredIff(CFG, map[], pkt, a, env, Router.HandleMsg(CFG, map[], Router.FromLan(pkt), env).action);
  }

  const ARP_IPV4: EtherType := IPv4

  //
  // Devices
  //

  /** A chain without room loses its packet. */
  lemma SmallChainLoses()
    ensures var pkt := EthernetPacket(EthernetFrame(MAC_B, MAC_A, IPv4), []);
            VirtQueue.Drain([pkt], [VirtQueue.Chain(0, [], 25)]).lost == [pkt]
  {
  }

  /** The address after the only region translates, although it is in no region. */
  lemma EndOfTheOnlyRegion()
    ensures var ms := [Vhost.MappingOf(0x1000, 0x4000, 0x1000)];
            Vhost.Translate(ms, 0x2000) == Some(0x5000) && Vhost.HalfOpen(ms, 0x2000) == None
  {
  }

  /** A queue that has processed something says it has not. */
  lemma BaseIsForgotten()
    ensures var d := Vhost.VRingDescriptor(0, 1); Vhost.DecodeDescriptor(Vhost.EncodeDescriptor(d)) != Ok(d)
  {
    Vhost.DescriptorRoundTripIff(Vhost.VRingDescriptor(0, 1));
  }

  function TableMessage(r: Vhost.Region): (m: Session.Message)
  {
    Session.Message(Session.SET_MEM_TABLE, 0, Some(Vhost.EncodeRegions([r])), [Session.Rights([7])])
  }

  lemma TableIsAccepted(d: Session.Device, r: Vhost.Region)
    requires r.user != 0 && r.size != 0
    ensures Session.Handle(d, TableMessage(r), true).Next?
    ensures Session.Handle(d, TableMessage(r), true).dev.mappings
            == d.mappings + [Vhost.MappingOf(r.user, r.guest, r.size)]
  {
    hide Vhost.DecodeRegions, Vhost.EncodeRegions, Session.WithMemory;
    Vhost.RegionsRoundTripIff([r]);
    assert [r][..0] == [];
    assert Session.MapRegions([], [r][..0]) == [];
    Session.MapRegionsAppends(d.mappings, [r]);
  }

  lemma RunOfOne(d: Session.Device, m: Session.Message)
    requires Session.Handle(d, m, true).Next?
    ensures Session.Run(d, [(m, true)]) == Some(Session.Handle(d, m, true).dev)
  {
    hide Session.Handle;
    assert [(m, true)][..0] == [];
  }

  lemma RunOfTwo(d: Session.Device, a: Session.Message, b: Session.Message)
    requires Session.Handle(d, a, true).Next? && Session.Handle(Session.Handle(d, a, true).dev, b, true).Next?
    ensures Session.Run(d, [(a, true), (b, true)]) == Some(Session.Handle(Session.Handle(d, a, true).dev, b, true).dev)
  {
    hide Session.Handle;
    RunOfOne(d, a);
    assert [(a, true), (b, true)][..1] == [(a, true)];
  }

  /** A second table that moves a region is accepted, and not in force. */
  lemma SecondTableIsNotInForce() returns (first: Vhost.Region, second: Vhost.Region, d: Session.Device)
    ensures Session.Run(Session.NewDevice(2), [(TableMessage(first), true), (TableMessage(second), true)]) == Some(d)
    ensures first.user == second.user && first.size == second.size && first.guest != second.guest
    ensures Vhost.Translate([Vhost.MappingOf(second.user, second.guest, second.size)], 0x1800) == Some(0x8800)
    ensures Vhost.Translate(d.mappings, 0x1800) == Some(0x800)
  {
    hide Session.Handle, TableMessage;
    first, second := Vhost.Region(0, 0x1000, 0x1000, 0), Vhost.Region(0x8000, 0x1000, 0x1000, 0);
    var d0 := Session.NewDevice(2);
    TableIsAccepted(d0, first);
    var d1 := Session.Handle(d0, TableMessage(first), true).dev;
    TableIsAccepted(d1, second);
    d := Session.Handle(d1, TableMessage(second), true).dev;
    RunOfTwo(d0, TableMessage(first), TableMessage(second));
    var older := [Vhost.MappingOf(0x1000, 0, 0x1000)];
    assert d1.mappings == older;
    Vhost.OlderTableWins(older, [Vhost.MappingOf(0x1000, 0x8000, 0x1000)], 0x1800);
    assert Vhost.Translate(older, 0x1800) == Some(0x800);
  }

  function KickMessage(fd: Session.Fd): (r: Session.Message)
  {
    Session.Message(Session.SET_VRING_KICK, 0, Some(ToLe(0, 8)), [Session.Rights([fd])])
  }

  lemma KickReadsBack(fd: Session.Fd)
    ensures Session.U64Payload(KickMessage(fd)) == Some(0) && Session.ExtractFd(KickMessage(fd)) == Some(fd)
  {
    assert ToLe(0, 8)[0..8] == ToLe(0, 8);
    Vhost.Le64Written(ToLe(0, 8), 0, 0);
  }

  /** A queue given a second kick still gets the first one's events, stopped or not. */
  lemma FirstKickStaysWatched(d: Session.Device, first: Session.Fd, second: Session.Fd)
    requires Session.Inv(d) && |d.queues| > 0 && d.queues[0].kick == Some(first) && first > 1 && second !in d.polled
    ensures var s := Session.Handle(d, KickMessage(second), true);
            && s.Next? && s.dev.queues[0].kick == Some(second) && Session.Stray(s.dev, first)
            && Session.Dispatch(s.dev, first).Some? && Session.Dispatch(s.dev, first).value.queue == 0
  {
    hide Session.U64Payload, Session.ExtractFd, Session.ReadyIffKick, Session.KicksNameQueues, Session.RingsNeedMemory,
      Session.RingsAreTranslated;
    KickReadsBack(second);
    assert Session.KickReaches(d, 0);
    assert Session.Handle(d, KickMessage(second), true) == Session.SetVringKick(d, KickMessage(second), true);
  }

  lemma FirstKickIsHeld()
    ensures var s := Session.Handle(Session.NewDevice(2), KickMessage(5), true);
            s.Next? && |s.dev.queues| == 2 && s.dev.queues[0].kick == Some(5) && s.dev.polled == {5}
  {
    hide Session.U64Payload, Session.ExtractFd;
    KickReadsBack(5);
    var d := Session.NewDevice(2);
    assert Session.Handle(d, KickMessage(5), true) == Session.SetVringKick(d, KickMessage(5), true);
  }

  /** A session of two messages in which that happens. */
  lemma TwoKicks() returns (d: Session.Device)
    ensures Session.Run(Session.NewDevice(2), [(KickMessage(5), true), (KickMessage(6), true)]) == Some(d)
    ensures Session.HasStray(d)
  {
    hide Session.U64Payload, Session.ExtractFd, KickMessage, Session.Run;
    FirstKickIsHeld();
    var d1 := Session.Handle(Session.NewDevice(2), KickMessage(5), true).dev;
    RunOfOne(Session.NewDevice(2), KickMessage(5));
    Session.EverySessionKeeps(2, [(KickMessage(5), true)]);
    FirstKickStaysWatched(d1, 5, 6);
    hide Session.Handle, Session.Inv, Session.Stray;
    RunOfTwo(Session.NewDevice(2), KickMessage(5), KickMessage(6));
    d := Session.Handle(d1, KickMessage(6), true).dev;
    Session.StrayIsPolled(d, 5);
  }

  //
  // Terminal
  //

  /** Typed text in two pieces is shown as something else. */
  lemma TextInTwoPieces()
    ensures var ms := [Fabrial.Data([104, 105])];
            var pieces := [Fabrial.Encode(ms[0])[..4], Fabrial.Encode(ms[0])[4..]];
            Fabrial.Said(Fabrial.Serve([], pieces)) != Fabrial.Shown(ms)
  {
    var ms := [Fabrial.Data([104, 105])];
    var stream := Fabrial.Encode(ms[0]);
    var pieces := [stream[..4], stream[4..]];
    assert ms[..0] == [] && ms[..1] == ms;
    assert Fabrial.EncodeAll([]) == [] && [] + stream[..4] == stream[..4];
    Fabrial.CutPieceShows([], ms[0], stream[..4], [], pieces);
  }

  /** Text behind the zero last byte of a size, arriving with it, is not shown until more arrives. */
  lemma TextBehindASize()
    ensures var size, text := Fabrial.Resize(24, 80), Fabrial.Data([104, 105]);
            var pieces := [Fabrial.Encode(size)[..4], Fabrial.Encode(size)[4..] + Fabrial.Encode(text)];
            Fabrial.Said(Fabrial.Serve([], pieces)) == Fabrial.Shown([size])
  {
    var size, text := Fabrial.Resize(24, 80), Fabrial.Data([104, 105]);
    Fabrial.SizeBeforeItsZero([], size, Fabrial.Encode(text), []);
    assert Fabrial.Encode(size)[4..] == [0];
    hide Fabrial.Encode;
    var pieces := [Fabrial.Encode(size)[..4], [0] + Fabrial.Encode(text)];
    assert Fabrial.EncodeAll([]) + Fabrial.Encode(size)[..4] == Fabrial.Encode(size)[..4];
    assert [Fabrial.EncodeAll([]) + Fabrial.Encode(size)[..4], [0] + Fabrial.Encode(text)] + [] == pieces;
  }

  /** Nothing typed ends the session. */
  lemma EmptyDataFails()
    ensures Fabrial.ReadAll(Fabrial.Encode(Fabrial.Data([]))) != [Fabrial.Effect(Fabrial.Data([])), Fabrial.WouldBlock]
  {
    Fabrial.RoundTripIff(Fabrial.Data([]));
  }
}
