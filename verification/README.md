# Oathgate: verified model of the network core

Oathgate gives QEMU guests a userspace network: guests talk vhost-user to virtio devices, the
devices hang on a learning Ethernet switch, and a router with ARP, DHCP and ICMP behind one of
the switch's ports forwards to a WireGuard WAN with NAT. This project models that path in Dafny,
from descriptor chain to tunnel and back, and proves what the pieces promise, alone and together.

The model is release-build Rust: 16- and 32-bit arithmetic that a debug build would panic on
wraps here, and every slice or `unwrap` that can panic is a result of its own (`Outcome.Panic`,
`Dead`, `Stop`, `Ended`, or `alive` turning false). Objects that the source updates in place are
classes; each of their methods is proved against a function on values, and the results about
whole runs are about those functions. The end-to-end runs use the very functions that the classes
for router, NAT table and WAN device are proved against; the switch runs in them with its calls
split where it takes and releases its locks and interleaved in any way, and a call that nobody
interferes with does what the class does.

| file | source | what is in it |
|---|---|---|
| Bytes.dfy, Bits.dfy | | machine integers, byte order, buffers; bitwise operators |
| Checksum.dfy | oathgate-net/src/lib.rs | the internet checksum against RFC 1071 |
| Subnet.dfy | oathgate-net/src/types/netaddress.rs | masks, network and broadcast addresses |
| Dhcp.dfy | oathgate-bridge/src/net/dhcp.rs | the address pool and the leases |
| Ipv4.dfy | oathgate-net/src/ipv4.rs | headers, address rewriting, fragment assembly |
| Nat.dfy | oathgate-net/src/nat.rs | the NAT table |
| Wan.dfy | oathgate-bridge/src/net/wan/wireguard.rs | reassembly cache, un-NAT, masquerading |
| Frame.dfy, Arp.dfy, Icmp.dfy | frame.rs, arp.rs, icmp.rs | codecs and the echo handler |
| Switch.dfy, SwitchConcurrency.dfy | oathgate-bridge/src/net/switch.rs | the switch with one caller, and with any number |
| Router.dfy | oathgate-bridge/src/net/router.rs | the router thread |
| Network.dfy, ReturnPath.dfy, FirstContact.dfy | all of the above | runs of the whole bridge; request and reply end to end |
| VirtQueue.dfy, ReceiveRuns.dfy | oathgate-vhost/src/queue.rs | kicks and drains; runs of the receive side |
| Vhost.dfy, Session.dfy | oathgate-vhost/src/types.rs, device.rs | payloads, address translation, the vhost-user session |
| Fabrial.dfy | tty.rs, pty/fabrial.rs | the terminal stream's writer and reader |
| Departures.dfy | | inputs for the cases below |

## Where the code differs from its intent

The model follows the code. Where that falls short of what the code is for, a lemma says exactly
when it does what it should, and `Departures` has inputs on which it does not:

- The checksum folds once, so it is one too large exactly when the fold itself carries
  (`Checksum.FoldOnceAgainstRfc1071`).
- Fragment offsets are read in 8-byte units and written in bytes, and the header length is always
  written as 5, so a header survives printing exactly when it has neither options nor an offset
  (`Ipv4.HeaderRoundTripIff`), and an address rewrite is a minimal edit exactly then (`Ipv4.MinimalEditIff`).
- Fragments land exactly when they arrive in order (`Ipv4.FragmentsLandIff`), and the reassembly cache
  goes by the id alone: two outside hosts whose fragments carry one id, each sequence complete and in
  order, end the WAN thread exactly when their sequences overlap (`Wan.SharedIdsIff`). Section 3.2 of
  RFC 791 asks for unique ids only per source, destination and protocol.
- The comment on the switch promises flooding for unknown destinations; the code drops the frame
  (`Switch.UnicastIsDroppedIffUnseen`).
- Concurrent calls of the switch can leave a stale port behind: a source is cached on a call's port
  exactly when the last write after that call's learning point, if any, is by a call on that port
  (`SwitchConcurrency.CachedIffNotOverwritten`, `SwitchConcurrency.RaceLeavesStalePort`).
- A LAN packet for another host of the subnet goes back to its sender (`Router.LanToLanGoesBack`).
- The router answers any ARP packet that names it, replies included (`Router.ArpIsAnsweredIff`).
- A DHCP request is granted an address outside the pool (`Dhcp.PoolIsConservedIff`), and the pool
  loop of a /32 network can run for ever (`Dhcp.PoolLoopNeverEnds`).
- Memory mappings include the address after their end: the translation is that of the regions exactly
  when that address is of no consequence (`Vhost.ClosedEndsMatterIff`). A second memory table does not
  replace the first one's translation (`Session.SecondTableIff`), and the ring base reply always says
  0 (`Vhost.DescriptorRoundTripIff`).
- A kick descriptor that is replaced without stopping its queue stays registered and goes on
  dispatching, even to the stopped queue: all watched descriptors are held by their queues exactly
  when that never happens (`Session.KicksAreHeldIff`, `Session.StoppedQueueIff`).
- A packet is lost when a guest's receive chain is too small for it (`VirtQueue.DrainLosesIff`).
- Terminal data that is empty or longer than 65535 bytes is not read back (`Fabrial.RoundTripIff`), and
  the reader keeps nothing between two arrivals: a stream that arrives in pieces is read right exactly
  when reading stops nowhere but where a message ends or before the zero last byte of a size, as every
  size of fewer than 256 columns has one, and leaves nothing in the end (`Fabrial.PiecesAreReadIff`).
  After a stop before that zero only the zero of the next piece is read, and what arrived with it waits
  (`Fabrial.SizeBeforeItsZero`).

## Model

| member | source | states |
|---|---|---|
| `ReturnPath.RoundTrip` | oathgate-bridge/src/net/wan/wireguard.rs:150-201 | In any run of the bridge, with the switch's calls interleaved at their locks in any way: a guest's request to an outside address reaches the router once and leaves exactly once, its bytes rewritten to the WAN source address, with its own destination and data and with checksums that verify; a packet that answers it (whole or completed from fragments) is enqueued exactly once, on the guest's port, for its MAC and address, provided the router's MAC had settled on its own port, that address was last bound to that MAC, no call has learned the MAC on another port since the request's did, and no other source sends in its flow |
| `ReturnPath.StillHostDoesNotMove` | oathgate-bridge/src/net/switch.rs:103-107 | The second proviso in terms of calls: it holds if every call carrying the MAC from another port had learned before the request's call started |
| `ReturnPath.RequestLeg` | oathgate-bridge/src/net/router.rs:244-259 | The way out: once the request's call of the switch has ended, it is one message of the router and no other, and once that is handled, one packet of the WAN and no other |
| `ReturnPath.ReplyLeg` | oathgate-bridge/src/net/wan/wireguard.rs:180-200 | The way back: a completed packet with a NAT entry is enqueued once, for the host its entry names, however the router's call interleaves with others |
| `ReturnPath.OnlyRepliesEnter` | oathgate-bridge/src/net/wan/wireguard.rs:180-200 | In every reachable state: a completed packet that answers nothing sent before brings the router nothing; one that does brings it exactly that packet, addressed to the source of the latest packet it answers, or ends the thread if it has no room for its checksum |
| `ReturnPath.MessageIsDelivered` | oathgate-bridge/src/net/router.rs:166-190 | A WAN packet for a host has been enqueued exactly once, on the host's port, once the router has handled it and its call of the switch has ended, in any interleaving in which the host's MAC stays learned on that port |
| `ReturnPath.RequestIsForwarded` | oathgate-bridge/src/net/router.rs:232-241 | A message with an outside-bound packet is forwarded once and only once |
| `ReturnPath.FrameReachesRouter` | oathgate-bridge/src/net/switch.rs:117-125 | An ended call with a frame to the router's MAC has brought the router that frame exactly once, if that MAC stays learned on the router's port |
| `ReturnPath.ReplyBytesAddressHost` | oathgate-net/src/ipv4.rs:317-321 | The rewritten reply names the host in its parsed header and in its bytes |
| `FirstContact.FirstExchange` | oathgate-bridge/src/net/router.rs:209-259 | For every host, request and reply: connect, ask for the router's MAC, send, receive, each call of the switch step by step to its end; every condition of `RoundTrip` is met and the reply is delivered once |
| `FirstContact.SettingIsMet` | oathgate-bridge/src/net/router.rs:244-259 | A host, configuration, request and reply that `FirstExchange` is about: 192.168.1.7 behind 192.168.1.1/24, a UDP packet to 8.8.8.8 and its answer |
| `FirstContact.AskingIsAnswered` | oathgate-bridge/src/net/router.rs:209-230 | After the host's ARP question the router knows the host and the switch knows the router's port |
| `Network.EveryRunKeeps` | oathgate-bridge/src/net/router.rs:123-146 | In every run, calls interleaved in any way: the ARP and NAT tables are what their histories say and the MAC cache what the calls' learning points say; the WAN has been handed exactly the outside-bound messages, in order; each handled message has caused the one call of the switch that handling it asks for, with that frame, or none if it asks for none; each call has brought the router as many messages as it enqueued there; the tunnel holds every sent packet with the WAN address for its source, its own destination and data, and checksums that verify; every message from the WAN is a reply to a packet sent before, addressed to its source; histories only grow |
| `Network.SwitchingKeeps` | oathgate-bridge/src/net/switch.rs:94-128 | A step of the switch, starting a call or advancing any call, keeps all of that |
| `Network.HandleNextKeeps` | oathgate-bridge/src/net/router.rs:123-190 | Handling the next message keeps all of that, the call it starts included |
| `Network.SendNextKeeps` | oathgate-bridge/src/net/wan/wireguard.rs:290-299 | Sending the next WAN packet keeps all of that: the NAT table takes in exactly that packet, and the tunnel gets it with the WAN source address and its own destination and data |
| `Wan.InterleavedReassembly` | oathgate-bridge/src/net/wan/wireguard.rs:155-178 | For any interleaving of whole packets with in-order fragment sequences of any number of ids: the thread survives, whole packets pass in order, each sequence comes out as exactly one datagram, and the cache ends empty |
| `Wan.DatagramContents` | oathgate-net/src/ipv4.rs:269-296 | A completed datagram carries the concatenated payloads, its length field (parsed and in the bytes) is 20 plus their size, it is no fragment, its header checksum is in place, its other fields are the first fragment's |
| `Wan.OneIdAtATime` | oathgate-bridge/src/net/wan/wireguard.rs:155-178 | For any trace and cache, what becomes of one id until the thread ends, if it does, is what its own fragments alone lead to |
| `Wan.SurvivesIff` | oathgate-bridge/src/net/wan/wireguard.rs:155-178 | The thread survives a trace exactly when it survives each id's fragments alone |
| `Wan.DiesIff` | oathgate-bridge/src/net/wan/wireguard.rs:155-178 | After any trace the thread lived through, the next packet ends it exactly if it is a later fragment and either the last one of a sequence that is not open, or one that reaches past what is cached or leaves less than a header |
| `Wan.CachedIffOpened` | oathgate-bridge/src/net/wan/wireguard.rs:155-178 | For any trace: an id is cached exactly while a first fragment of it has arrived and no last one since |
| `Wan.StopsIff` | oathgate-bridge/src/net/wan/wireguard.rs:155-178 | The same for one packet and any cache; a middle fragment without an entry changes nothing |
| `Wan.WholesPassThrough` | oathgate-bridge/src/net/wan/wireguard.rs:156-157 | Unfragmented packets pass in order, whatever fragments surround them |
| `Wan.CompletesFrom` | oathgate-bridge/src/net/wan/wireguard.rs:168-173 | From any point of an in-order sequence the rest completes its datagram and removes the entry |
| `Wan.GroupsComplete` | oathgate-bridge/src/net/wan/wireguard.rs:155-178 | Consecutive sequences that reuse one id come out as one datagram each, in order |
| `Wan.SharedIdsIff` | oathgate-bridge/src/net/wan/wireguard.rs:155-178 | Complete in-order sequences of any senders, their fragments mixed with each other and with whole packets in any way: the thread survives exactly when no two sequences with one id overlap; then the cache ends empty, whole packets pass in order, and every sequence comes out as its own datagram, once, in the order in which they end |
| `Wan.WgDevice.HandleTunnelV4` | oathgate-bridge/src/net/wan/wireguard.rs:150-201 | An inbound packet changes cache, liveness and what is routed as `Inbound` says, which is what `OnlyRepliesPass` and `InboundEndsIff` are about, and sends nothing to the tunnel |
| `Wan.WgDevice.RebuildFragments` | oathgate-bridge/src/net/wan/wireguard.rs:155-178 | The in-place cache does what the reassembly function says, including when the thread ends |
| `Wan.OnlyRepliesPass` | oathgate-bridge/src/net/wan/wireguard.rs:180-200 | A completed packet without a NAT entry is dropped, and that is one that answers nothing sent; any other gets the source of the latest packet it answers for its destination, in the header and in the bytes, or ends the thread |
| `Wan.InboundEndsIff` | oathgate-bridge/src/net/wan/wireguard.rs:150-201 | An inbound packet ends the thread exactly if it does not parse, does not fit what is cached, or completes a packet too short to look up or, once found, to rewrite; else the NAT table stays |
| `Wan.LeavesMasqueraded` | oathgate-bridge/src/net/wan/wireguard.rs:290-299 | An outbound packet enters the table with its own source and the tunnel with the WAN address, its own destination and its data; exactly when it is long enough |
| `Wan.WgDevice.SendOutbound` | oathgate-bridge/src/net/wan/wireguard.rs:290-299 | The table records the packet with its original source before the bytes are rewritten; the bytes that enter the tunnel have the WAN source address and the packet's own destination |
| `Nat.ReplyFindsSender` | oathgate-net/src/nat.rs:33-125 | After any outbound history, looking up a reply (from the address sent to, to the port sent from, or with the same ICMP id) gives the source of the packet it answers unless another source has sent in that flow since |
| `Nat.KeysTellFlowsApart` | oathgate-net/src/nat.rs:33-125 | A packet has a key exactly if it has a port or an ICMP id; two packets share one exactly if protocol, destination and port or id agree; a packet is looked up with another's key exactly if it is a reply to it |
| `Nat.UnaskedFindsNothing` | oathgate-net/src/nat.rs:85-125 | A packet finds nothing exactly when it is a reply to nothing that was sent |
| `Nat.FoundIsLatest` | oathgate-net/src/nat.rs:85-125 | What is found is the source of the latest packet that the reply answers |
| `Nat.TableIsLatest` | oathgate-net/src/nat.rs:33-49 | A key maps to the source of the latest packet sent with it |
| `Nat.TableDomain` | oathgate-net/src/nat.rs:33-49 | A key is present exactly when some packet was sent with it |
| `Nat.FlowsAreIndependent` | oathgate-net/src/nat.rs:33-125 | What a reply finds depends only on the packets it answers, by protocol, address and port or ICMP id |
| `Nat.NatTable.InsertPacket` | oathgate-net/src/nat.rs:33-49 | The table after an insert, under the key that `KeysTellFlowsApart` is about; packets of other protocols leave it alone |
| `Nat.NatTable.GetSource` | oathgate-net/src/nat.rs:85-125 | The lookup by remote address and destination port, or ICMP id |
| `Ipv4.ReaddressIsMinimal` | oathgate-net/src/ipv4.rs:302-343 | Masquerading and unmasquerading change only the address, the header checksum and the TCP or UDP checksum, leave both checksums as computed, and keep header and bytes in agreement |
| `Ipv4.OneAddressIsRewritten` | oathgate-net/src/ipv4.rs:302-343 | For packets with options too: masquerading puts the address at byte 12 and keeps the destination, unmasquerading at byte 16 and keeps the source; behind the header only the TCP checksum (at 16) or UDP checksum (at 6) changes; header and pseudo-header checksums verify |
| `Ipv4.MinimalEditIff` | oathgate-net/src/ipv4.rs:161-163 | Nothing outside those bytes changes exactly for packets without options and with offset 0 |
| `Ipv4.RewriteBackRestoresIff` | oathgate-net/src/ipv4.rs:302-343 | Rewriting the old address back restores the bytes exactly when the original carried computed checksums |
| `Ipv4.HeaderRoundTripIff` | oathgate-net/src/ipv4.rs:82-118 | Printing then parsing keeps every field but the checksum exactly when IHL is 5 and the offset 0 |
| `Ipv4.PrintedParses` | oathgate-net/src/ipv4.rs:160-175 | What any header reads back as after printing: IHL 5, the offset times 8, its high bits merged into the flags |
| `Ipv4.PrintedFields` | oathgate-net/src/ipv4.rs:160-175 | Where each field is in the printed bytes, that the checksum is the one over them, and that type of service and payload stay |
| `Ipv4.ParsesIff` | oathgate-net/src/ipv4.rs:82-118 | Bytes parse exactly if they hold 20 bytes and the header they announce; which panic and which are refused |
| `Ipv4.FragmentsLandIff` | oathgate-net/src/ipv4.rs:269-289 | Every fragment of a size lands at its place of the payload exactly when its offset is the payload's end |
| `Ipv4.InOrderLands` | oathgate-net/src/ipv4.rs:277-279 | Such a fragment is appended to the payload and nothing before it changes |
| `Ipv4.OffTheEnd` | oathgate-net/src/ipv4.rs:280-289 | Elsewhere a fragment is put at its offset of the packet, a header too early, over zeros in a gap; which lengths and bytes result, and when it panics |
| `Ipv4.HeaderAsBytes` | oathgate-net/src/ipv4.rs:160-175 | The field-by-field writes and the checksum over them give the printed header; the rest of the buffer stays |
| `Ipv4.Ipv4Packet.AddFragmentData` | oathgate-net/src/ipv4.rs:269-289 | Appending, padding and overwriting in place, and the 16-bit length |
| `Ipv4.Ipv4Packet.FinalizePacket` | oathgate-net/src/ipv4.rs:292-296 | Flags and offset are cleared in the header and then in the bytes |
| `Ipv4.Ipv4Packet.SetSource` | oathgate-net/src/ipv4.rs:302-306 | The in-place masquerade: new source in header and bytes, destination and data kept, the rewrite of `ReaddressIsMinimal` |
| `Ipv4.Ipv4Packet.SetDestination` | oathgate-net/src/ipv4.rs:317-321 | The in-place unmasquerade: new destination in header and bytes, source and data kept, the rewrite of `ReaddressIsMinimal` |
| `Ipv4.Ipv4Packet.FixTransportChecksum` | oathgate-net/src/ipv4.rs:325-343 | The TCP or UDP checksum field gets the pseudo-header checksum computed with the field zeroed |
| `Checksum.ComputeChecksum` | oathgate-net/src/lib.rs:51-64 | The chunk loop computes the complement of the once-folded sum of big-endian words, an odd byte padded |
| `Checksum.ComputePhChecksum` | oathgate-net/src/lib.rs:73-97 | The same over pseudo-header and data |
| `Checksum.PseudoSumIs` | oathgate-net/src/lib.rs:73-97 | The sum of the pseudo-header is that of its 12 bytes (RFC 768, RFC 9293) in front of the data |
| `Checksum.SumChunks` | oathgate-net/src/lib.rs:86-94 | The chunk loop adds up the words modulo 2^32, from any start value |
| `Checksum.FoldOnceAgainstRfc1071` | oathgate-net/src/lib.rs:63 | Equal to the RFC 1071 checksum exactly when low plus high half stays below 65536, and larger by one otherwise |
| `Checksum.FoldFullyIsResidue` | oathgate-net/src/lib.rs:96 | The reference fold of section 4.1 of RFC 1071 is the residue modulo 65535 |
| `Checksum.SealedDataVerifies` | oathgate-net/src/lib.rs:51-97 | Data sealed with the checksum at an even offset sums to 0 again, or to 0xFFFF if the fold carried, and an RFC 1071 receiver accepts it exactly in the first case |
| `Subnet.NewNetwork` | oathgate-net/src/types/netaddress.rs:35-45 | For every prefix length the XOR loop yields 2^32 - 2^(32-m) |
| `Subnet.MaskBitsOfPrefix` | oathgate-net/src/types/netaddress.rs:53-55 | Counting the ones of a prefix mask gives the length back |
| `Subnet.BlockEnds` | oathgate-net/src/types/netaddress.rs:63-70 | Network and broadcast address are the ends of the aligned block around the address |
| `Subnet.ContainsIsInterval` | oathgate-net/src/types/netaddress.rs:73-75 | An address is contained exactly when it lies between them as an integer |
| `Subnet.Next` | oathgate-net/src/types/netaddress.rs:78-87 | The following address, wrapping, unless it is an end of the old address's block |
| `Dhcp.BuildPool` | oathgate-bridge/src/net/dhcp.rs:36-45 | The loop ends, and yields start, start+1, up to min(end, broadcast-1), ascending, each once; and what it yields from a block's last address and in a /32 network |
| `Dhcp.PoolContents` | oathgate-bridge/src/net/dhcp.rs:36-45 | Turn by turn, wrapping addition and rebuilt network included, the loop's addresses are those intervals, for every configuration in which it ends |
| `Dhcp.PoolLoopNeverEnds` | oathgate-bridge/src/net/dhcp.rs:38-45 | With one-address blocks and end 255.255.255.255 it never ends |
| `Dhcp.DhcpServer.constructor` | oathgate-bridge/src/net/dhcp.rs:28-53 | A new server has that pool free and nothing leased |
| `Dhcp.FreshServerIsValid` | oathgate-bridge/src/net/dhcp.rs:47-52 | Whatever the configuration, its free queue has no duplicates and no leased address |
| `Dhcp.DhcpServer.LeaseIp` | oathgate-bridge/src/net/dhcp.rs:55-83 | The new queue and leases; exhaustion exactly when the queue is empty and the request names no address or one leased to another MAC; a granted address is leased to the client |
| `Dhcp.DhcpServer.HandleMessage` | oathgate-bridge/src/net/dhcp.rs:164-198 | Discover is answered with an offer, Request with an acknowledgement, other messages with no bytes, which the UDP handler sends as an empty datagram |
| `Dhcp.HandleKeepsLeases` | oathgate-bridge/src/net/dhcp.rs:55-83 | A message keeps the free queue free of duplicates and of leased addresses, and every lease |
| `Dhcp.RepliesAre` | oathgate-bridge/src/net/dhcp.rs:55-119 | Discover gets an offer and Request an acknowledgement: of the address asked for unless another MAC has it, else of the first free one; which is then leased; or nothing, exactly if there is none |
| `Dhcp.OffersInOrder` | oathgate-bridge/src/net/dhcp.rs:55-83 | Over any number of clients that ask for nothing in particular: the free addresses are offered in order, until there is none |
| `Dhcp.LeasesNeverMove` | oathgate-bridge/src/net/dhcp.rs:55-83 | Over any message sequence leases are only added: none is dropped or moved to another MAC |
| `Dhcp.OneHolderPerAddress` | oathgate-bridge/src/net/dhcp.rs:92-119 | No address is ever offered or acknowledged to two MACs |
| `Dhcp.OfferIsAcknowledged` | oathgate-bridge/src/net/dhcp.rs:92-119 | A Request for an offered address is acknowledged with it, whatever came between |
| `Dhcp.PoolIsConservedIff` | oathgate-bridge/src/net/dhcp.rs:58-63 | Free and leased addresses stay the initial pool exactly as long as every requested address lies in it |
| `Frame.ExtractThenPrint` | oathgate-net/src/frame.rs:39-54 | Printing the header in front of the payload gives the frame back |
| `Frame.PrintThenExtract` | oathgate-net/src/frame.rs:68-78 | Extraction gives back what was printed |
| `Frame.FrameLayout` | oathgate-net/src/frame.rs:39-54 | Where the fields are, and that exactly frames of 14 bytes and one of three ethertypes are accepted |
| `Arp.AsBytes` | oathgate-net/src/protocols/arp.rs:156-178 | The in-place writes give the packet's bytes in front of the rest of the buffer, for IPv4 and IPv6; with addresses of two kinds, the fixed fields only; a panic exactly on a buffer too short |
| `Arp.PrintThenParse` | oathgate-net/src/protocols/arp.rs:57-178 | Print then parse is the identity on well-formed packets |
| `Arp.ParseThenPrint` | oathgate-net/src/protocols/arp.rs:57-178 | What parses is well formed and prints as the bytes it came from |
| `Arp.ArpLayout` | oathgate-net/src/protocols/arp.rs:57-140 | Which packets parse and which panic, and where the fields are |
| `Icmp.HandleProtocol` | oathgate-bridge/src/net/router/handler/icmp.rs:22-47 | The checksum over the zero-padded 1540-byte buffer is the one over the exact reply; short, foreign and oversized requests |
| `Icmp.EchoReplyAnswers` | oathgate-bridge/src/net/router/handler/icmp.rs:34-43 | The reply keeps identifier, sequence number and data, and its checksum seals it |
| `Switch.VirtioSwitch.ProcessFrame` | oathgate-bridge/src/net/switch.rs:94-128 | Each target port, and no other, gets the packet at the end of its queue; a malformed frame changes nothing; the cache follows the history of calls |
| `Switch.CacheIsLastSeen` | oathgate-bridge/src/net/switch.rs:103-107 | With one caller at a time the cache is the last port a MAC was seen on |
| `Switch.CacheDomain` | oathgate-bridge/src/net/switch.rs:103-107 | A MAC is cached exactly when a frame from it was accepted |
| `Switch.BroadcastOnceEach` | oathgate-bridge/src/net/switch.rs:111-116 | A broadcast goes to every port but the sender's exactly once |
| `Switch.FrameReaches` | oathgate-bridge/src/net/switch.rs:94-128 | How often an accepted frame is enqueued on each port: a broadcast once on each connected port but the sender's, a unicast frame once on its destination's known port and nowhere else |
| `Switch.UnicastIsDroppedIffUnseen` | oathgate-bridge/src/net/switch.rs:117-125 | A unicast frame reaches no port exactly when its destination was never seen |
| `SwitchConcurrency.EveryRunIsSafe` | oathgate-bridge/src/net/switch.rs:94-128 | For any interleaving of callers at the lock boundaries: cache entries come from frames of that MAC on that port, which is connected; a broadcast is enqueued once on each port but the sender's; a unicast frame at most once, where its destination was seen |
| `SwitchConcurrency.NextKeepsInv` | oathgate-bridge/src/net/switch.rs:94-128 | Every step of every caller keeps the invariant behind that |
| `SwitchConcurrency.SoloCallIsProcess` | oathgate-bridge/src/net/switch.rs:94-128 | A call that runs alone does exactly what the sequential switch does |
| `SwitchConcurrency.CachedIffNotOverwritten` | oathgate-bridge/src/net/switch.rs:103-107 | In every run, a call's source is cached on the call's port exactly when the last write for it after the call's learning point, if any, is by a call on that port |
| `SwitchConcurrency.LastCallIsCached` | oathgate-bridge/src/net/switch.rs:103-107 | The cache names the last call's port if every call carrying that source from another port had learned before the last one started |
| `SwitchConcurrency.SettledDelivers` | oathgate-bridge/src/net/switch.rs:110-125 | However calls interleave, a frame for a MAC that stays learned on a port is enqueued there exactly once and nowhere else |
| `SwitchConcurrency.BroadcastReachesAll` | oathgate-bridge/src/net/switch.rs:110-116 | However calls interleave: a finished broadcast was enqueued exactly once on every port connected when its call started, but the sender's |
| `SwitchConcurrency.RaceLeavesStalePort` | oathgate-bridge/src/net/switch.rs:104-107 | A run in which a later frame has confirmed a MAC's port and the cache names another: the failing side of `CachedIffNotOverwritten` |
| `Router.RouterThread.Handle` | oathgate-bridge/src/net/router.rs:123-146 | One message: ARP table, forwarded packets, and the frame that goes through the switch from the router's port |
| `Router.RouterThread.Route` | oathgate-bridge/src/net/router.rs:153-164 | Learning and the decision, for every ethertype, parse error and panic |
| `Router.RouterThread.Perform` | oathgate-bridge/src/net/router.rs:166-190 | What each action does to switch, WAN and thread, and what it leaves alone |
| `Router.RouterThread.RouteIpv4` | oathgate-bridge/src/net/router.rs:244-259 | Local, LAN and WAN destinations |
| `Router.RouterThread.HandleLocalIpv4` | oathgate-bridge/src/net/router.rs:266-294 | The handler's reply with its header, or the drop |
| `Router.RouterThread.LearnArp` | oathgate-bridge/src/net/router.rs:209-230 | The sender is bound and a question for the router is answered |
| `Router.ArpIsLatest` | oathgate-bridge/src/net/router.rs:218 | An address maps to the latest MAC that claimed it |
| `Router.ArpIsAnsweredIff` | oathgate-bridge/src/net/router.rs:220-225 | An ARP packet is answered exactly when it names an address of the router: to its sender, operation 2, the router's MAC for that address |
| `Router.PingIsAnswered` | oathgate-bridge/src/net/router.rs:266-294 | An echo request to the router comes back to its sender as a whole IPv4 packet with addresses swapped, length and checksum right, and the echo reply inside |
| `Router.LocalIsAnsweredIff` | oathgate-bridge/src/net/router.rs:244-294 | A packet to the router, from either side, is answered exactly if its handler has an answer and the MAC is known: as a whole packet of its protocol with addresses swapped, id, length and checksum right; else it is dropped |
| `Router.HandlersAnswer` | oathgate-bridge/src/net/router/handler/icmp.rs:22-47 | ICMP answers echo requests only, UDP what its port's handler says, other protocols nothing; short and oversized packets |
| `Router.RouterEndsIff` | oathgate-bridge/src/net/router.rs:123-190 | Which messages end the router thread, exactly |
| `Router.LanToLanGoesBack` | oathgate-bridge/src/net/router.rs:163-173 | A LAN packet for another host goes out unchanged, framed from the router to its own sender: it reaches that host's MAC only if it came from it |
| `VirtQueue.VirtQueue.HandleRxQueued` | oathgate-vhost/src/queue.rs:222-280 | Pending packets, available chains, used entries and notification after a drain, and each error |
| `VirtQueue.VirtQueue.DrainPending` | oathgate-vhost/src/queue.rs:233-274 | The loop is the drain, and says whether every chain was large enough |
| `VirtQueue.VirtQueue.KickRx` | oathgate-vhost/src/queue.rs:208-219 | A zero counter is an error that changes nothing; otherwise the drain, its result and its notification |
| `VirtQueue.VirtQueue.KickTx` | oathgate-vhost/src/queue.rs:162-205 | Every available chain is taken, switched in order and returned, up to the first bad one; it succeeds and notifies exactly for a counter, memory, an enabled queue and acceptable frames only |
| `VirtQueue.VirtQueue.TransmitChains` | oathgate-vhost/src/queue.rs:176-199 | The loop's switch calls, used entries and error |
| `VirtQueue.ReadChain` | oathgate-vhost/src/queue.rs:182-188 | The 4096-byte read loop recovers the whole content, of any length |
| `VirtQueue.DrainConserves` | oathgate-vhost/src/queue.rs:233-274 | Delivered, at most one lost, and pending packets are the pending packets before, in order; it stops only for lack of packets or chains |
| `VirtQueue.DrainFills` | oathgate-vhost/src/queue.rs:255-273 | One chain per packet; the used entry of chain k has its head and 26 plus the payload size for its length, and its bytes are the virtio header with one buffer, the frame's header and the payload of packet k |
| `VirtQueue.DrainLosesIff` | oathgate-vhost/src/queue.rs:266-268 | A packet is lost exactly when some packet meets a chain too small for it |
| `VirtQueue.TransmitsAllIff` | oathgate-vhost/src/queue.rs:174-199 | The frames of a kick all go through exactly when every chain holds an acceptable one |
| `VirtQueue.TransmitsInOrder` | oathgate-vhost/src/queue.rs:174-199 | Up to the first chain without one, each frame is switched once, in order, and its chain returned under its head with the length of the frame |
| `VirtQueue.FirstBadChain` | oathgate-vhost/src/queue.rs:174-199 | The first chain without one says how the kick failed, and is not returned |
| `VirtQueue.GuestToGuest` | oathgate-vhost/src/types.rs:389-428 | The bytes after the receiver's virtio header are those after the sender's, for every frame of a supported ethertype and learned destination, which alone gets it |
| `ReceiveRuns.EveryRunConserves` | oathgate-vhost/src/queue.rs:222-280 | Over any interleaving of enqueues, offers and drains on any number of queues: delivered, lost and pending are what was ever enqueued, in order; each ring's used entries return its chains in order, by head and length, and hold what was delivered to it; no chain is popped without a packet; nothing is lost while the thread lives |
| `ReceiveRuns.NextKeeps` | oathgate-vhost/src/device.rs:208-219 | Every event keeps the invariant behind that |
| `ReceiveRuns.WakeQueue` | oathgate-vhost/src/queue.rs:222-280 | The queue object does what a drain does in those runs, and the thread goes on exactly if it succeeds |
| `Vhost.ParseRegions` | oathgate-vhost/src/types.rs:509-531 | The loop reads the announced number of regions, or fails on a short payload |
| `Vhost.RegionLayout` | oathgate-vhost/src/types.rs:509-531 | Which payloads decode, and where the fields of each region are |
| `Vhost.RegionsRoundTripIff` | oathgate-vhost/src/types.rs:509-531 | A region list decodes from its encoding exactly when it is not empty |
| `Vhost.LowByteFirst` | oathgate-vhost/src/types.rs:509-531 | Numbers are read low byte first |
| `Vhost.DescriptorRoundTripIff` | oathgate-vhost/src/types.rs:533-540 | A ring base survives its encoding exactly when it is 0 |
| `Vhost.TranslateMeetsRegion` | oathgate-vhost/src/types.rs:305-311 | With disjoint closed ranges an address of a region translates inside that region |
| `Vhost.OrderDoesNotMatter` | oathgate-vhost/src/device.rs:874-879 | With disjoint closed ranges the order of the regions does not matter |
| `Vhost.TranslateIsInjective` | oathgate-vhost/src/device.rs:874-879 | With disjoint closed guest ranges too, no two addresses translate alike |
| `Vhost.ClosedEndsMatterIff` | oathgate-vhost/src/types.rs:305-311 | For disjoint regions and every address: the translation is that of the regions without their ends exactly when the address is no region's end, or is in a region listed before the one ending there or continuing it in the guest too |
| `Vhost.OlderTableWins` | oathgate-vhost/src/device.rs:775 | Appending a table never changes an address already translated |
| `Session.EverySessionKeeps` | oathgate-vhost/src/device.rs:366-834 | After any messages that have not ended the thread: ready exactly when a kick is held; a held kick is polled and dispatches to its queue; registered kicks name existing queues, Rx even and Tx odd; ring addresses only with memory on all queues, and still translations after later tables |
| `Session.HandleKeeps` | oathgate-vhost/src/device.rs:366-834 | Every single message keeps that |
| `Session.KicksDispatch` | oathgate-vhost/src/device.rs:298-319 | In every session: exactly the polled descriptors but the two reserved tokens dispatch, and a held kick to its own queue, to receive for even and to transmit for odd ones |
| `Session.NewDeviceIsStopped` | oathgate-vhost/src/device.rs:221-253 | A new device has no mappings and stopped queues that hold nothing |
| `Session.RingsLandInGuestMemory` | oathgate-vhost/src/device.rs:575-613 | After a first memory table, ring addresses inside its regions are accepted, and each ring ends up at the guest address of the place named for it |
| `Session.RegionTranslates` | oathgate-vhost/src/types.rs:289-311 | An offset into a region translates to the same offset into its guest range |
| `Session.SecondTableIff` | oathgate-vhost/src/device.rs:732-783 | A second table is in force for an address exactly when the older ones do not translate it, or agree |
| `Session.StoppedQueueIff` | oathgate-vhost/src/device.rs:664-684 | A stopped queue's own kick is watched no more, although its entry stays and an event already given to the loop still reaches the queue; what still dispatches to it are exactly the descriptors replaced there before |
| `Session.KicksAreHeldIff` | oathgate-vhost/src/device.rs:298-319 | In every live session, all descriptors the poll watches are held by the queue they dispatch to exactly when no queue was ever given a kick while it held another |
| `Session.DescriptorIsSet` | oathgate-vhost/src/device.rs:492-530 | SET_VRING_CALL and SET_VRING_ERR set that descriptor of the queue they name and nothing else, or end the thread |
| `Session.StateIsSet` | oathgate-vhost/src/device.rs:466-640 | SET_VRING_NUM, SET_VRING_BASE and SET_VRING_ENABLE set the size, the next index, or enable, and nothing else |
| `Session.SettersNeedTheirPayload` | oathgate-vhost/src/device.rs:466-640 | Without payload or descriptor those five end the thread |
| `Session.TableIsAcceptedIff` | oathgate-vhost/src/device.rs:716-788 | A memory table is accepted exactly if it decodes, is not empty, has no empty or unplaced region, and one descriptor for each; one mapping per region is added, and every queue gets the table |
| `Session.RingsAreSet` | oathgate-vhost/src/device.rs:575-613 | The three ring addresses of a queue are set, each to its translation, or the thread ends |
| `Session.KickIsSet` | oathgate-vhost/src/device.rs:686-714 | A kick is held, registered once, and filed to receive for even queues and to transmit for odd ones |
| `Session.BaseStops` | oathgate-vhost/src/device.rs:641-684 | A stopped queue loses its three descriptors and its registration, and the reply is its index and zeros |
| `Session.RequestsAreAnswered` | oathgate-vhost/src/device.rs:372-464 | What GET_FEATURES, GET_PROTOCOL_FEATURES, GET_QUEUE_NUM, GET_MAX_MEM_SLOTS and GET_STATUS reply |
| `Session.StatusIsLastSet` | oathgate-vhost/src/device.rs:531-558 | In every live session the status is the one set last |
| `Session.ChannelIsKept` | oathgate-vhost/src/device.rs:439-452 | The back-end channel is kept, and acknowledged exactly if asked to |
| `Session.OthersChangeNothing` | oathgate-vhost/src/device.rs:366-834 | All other messages leave the device as it is |
| `Session.VirtioDevice.ParseMsg` | oathgate-vhost/src/device.rs:366-834 | New state and reply of every message, or the end of the thread |
| `Session.VirtioDevice.InstallMemory` | oathgate-vhost/src/device.rs:716-788 | Region and descriptor counts must agree; mappings are appended, memory goes to all queues |
| `Session.VirtioDevice.MapAll` | oathgate-vhost/src/device.rs:732-777 | The loop succeeds exactly when no region is empty or at address 0 |
| `Session.VirtioDevice.SetVringAddresses` | oathgate-vhost/src/device.rs:582-612 | All three ring addresses are translated or none is set |
| `Session.VirtioDevice.StartVring` | oathgate-vhost/src/device.rs:698-714 | Kick held, queue ready, descriptor registered with the poll, or the end if it is already, and filed by parity |
| `Session.VirtioDevice.StopVring` | oathgate-vhost/src/device.rs:664-684 | Not ready, descriptors dropped, kick deregistered, ring base replied |
| `Session.VirtioDevice.SetQueueField` | oathgate-vhost/src/device.rs:466-530 | The messages that set one field of one queue |
| `Session.VirtioDevice.SetDeviceField` | oathgate-vhost/src/device.rs:372-464 | The messages about the device, and their replies |
| `Fabrial.RoundTrip` | oathgate-fabrial/src/tty.rs:149-245 | Any sequence of sendable messages that has arrived whole is read back as itself, then the end of the stream |
| `Fabrial.PiecesAreReadIff` | oathgate-fabrial/src/tty.rs:113-213 | For any way the bytes of sendable messages arrive in pieces, each read until nothing more is there: the terminal is shown exactly those messages if and only if reading stops nowhere but where a message ends or before the zero last byte of a size, and leaves nothing after the last piece |
| `Fabrial.WholePiecesAreRead` | oathgate-fabrial/src/tty.rs:113-213 | Pieces that each end where a message ends are read right |
| `Fabrial.SizeBeforeItsZero` | oathgate-fabrial/src/tty.rs:156-168 | After any messages, a size whose zero last byte arrives with the next piece is read right; of that piece only the zero is read, and the rest is read with the piece after it |
| `Fabrial.RoundTripIff` | oathgate-runner/src/pty/fabrial.rs:88-105 | A message is read back exactly when it is data of 1 to 65535 bytes or a size without zeros |
| `Fabrial.OnTheWire` | oathgate-runner/src/pty/fabrial.rs:88-105 | The bytes of a message: type 1 or 2, then length and data, or rows and columns, low bytes first |
| `Fabrial.OtherBytes` | oathgate-fabrial/src/tty.rs:149-175 | A byte that is no type is skipped, and a zero reads as nothing there |
| `Fabrial.ReadsOne` | oathgate-fabrial/src/tty.rs:149-175 | Reading a message touches nothing of what follows it |
| `Fabrial.ShortLengthIff` | oathgate-fabrial/src/tty.rs:182-204 | A length of which the receive gets one byte, all the rest in time for the body: the message is shown exactly when it is shorter than 256 bytes and all zeros, and then one zero is left that reads as nothing there |
| `Fabrial.FabrialPty.WritePty` | oathgate-runner/src/pty/fabrial.rs:88-95 | What a data message adds to the stream |
| `Fabrial.FabrialPty.ResizePty` | oathgate-runner/src/pty/fabrial.rs:97-105 | What a resize message adds to the stream |
| `Fabrial.SockTty.ReadFromSocket` | oathgate-fabrial/src/tty.rs:149-175 | The same action and remaining stream however the receives of the body are split |
| `Fabrial.SockTty.HandleReadable` | oathgate-fabrial/src/tty.rs:118-127 | The loop ends; its actions and what it leaves unread are those of the bytes that have arrived, however the body receives are split |
| `Fabrial.SockTty.HandleSocketData` | oathgate-fabrial/src/tty.rs:182-213 | The receive loop ends and collects exactly the announced bytes, or all there are |
| `Departures.ChecksumOfSixBytes` | oathgate-net/src/lib.rs:63 | Six bytes whose checksum is one too large |
| `Departures.OptionsPacket` | oathgate-net/src/ipv4.rs:163 | A packet with options that a rewrite damages |
| `Departures.OffsetPacket` | oathgate-net/src/ipv4.rs:161 | A fragment that a rewrite damages and whose header does not read back |
| `Departures.UnsealedPacket` | oathgate-net/src/ipv4.rs:302-321 | A packet that rewriting there and back does not restore |
| `Departures.GapDoesNotLand` | oathgate-net/src/ipv4.rs:280-284 | A fragment after a gap that lands elsewhere |
| `Departures.TwoSenders` | oathgate-bridge/src/net/wan/wireguard.rs:155-178 | Four packets as their bytes parse, two each from two sources with one id, each sequence in order, whose overlap ends the thread |
| `Departures.OverlappingSendersEndTheThread` | oathgate-bridge/src/net/wan/wireguard.rs:168-177 | Any two such sequences come out as their two datagrams one after the other, and end the thread overlapping |
| `Departures.TwoSendersOneDatagram` | oathgate-bridge/src/net/wan/wireguard.rs:155-178 | If a sequence's last fragment is another sender's, of the same id and fitting, both make up one datagram of the first; those of `TwoSenders` can |
| `Departures.StrayLease` | oathgate-bridge/src/net/dhcp.rs:58-63 | A request that is granted an address outside the pool |
| `Departures.PacketGoesBack` | oathgate-bridge/src/net/router.rs:163-173 | A LAN packet for a known host that goes back to its sender |
| `Departures.ReplyIsAnswered` | oathgate-bridge/src/net/router.rs:220-225 | An ARP reply that is answered |
| `Departures.SmallChainLoses` | oathgate-vhost/src/queue.rs:266-268 | A chain that loses its packet |
| `Departures.EndOfTheOnlyRegion` | oathgate-vhost/src/types.rs:306 | An address in no region that translates |
| `Departures.BaseIsForgotten` | oathgate-vhost/src/types.rs:537 | A ring base that is not replied |
| `Departures.SecondTableIsNotInForce` | oathgate-vhost/src/device.rs:775 | A session of two memory tables, the second accepted and not in force |
| `Departures.TwoKicks` | oathgate-vhost/src/device.rs:698-714 | A session of two messages that leaves a descriptor watched which no queue holds |
| `Departures.TextInTwoPieces` | oathgate-fabrial/src/tty.rs:201-204 | Typed text that arrives in two pieces and is shown as something else |
| `Departures.TextBehindASize` | oathgate-fabrial/src/tty.rs:156-168 | Text that arrives with the zero last byte of a size and is not shown |
| `Departures.EmptyDataFails` | oathgate-fabrial/src/tty.rs:190-192 | Empty data, which ends the session |

## Left out

- ReturnPath.RoundTrip: the router and the WAN thread handle one message or packet per step; they share nothing but the queues between them.
- Ipv4.OneAddressIsRewritten: is about header lengths of at least five words; the parser lets shorter ones through, and then the transport checksum can fall on the addresses.
- Wan.InterleavedReassembly: is about sequences whose fragments arrive in order and whose first header has no options; Wan.OneIdAtATime, Wan.SurvivesIff and Ipv4.FragmentsLandIff cover the others.
- Wan.SharedIdsIff: the same, of complete sequences; where a sequence is cut short or its fragments change places, Wan.OneIdAtATime and Wan.SurvivesIff say what is left of it.
- Dhcp.BuildPool: excludes the /32 network ending at 255.255.255.255, for which the loop does not end.
- Checksum.SealedDataVerifies: is about up to 131056 bytes of data, more than an IP packet holds; beyond that the 32-bit sum may wrap.
- Ipv4.Ipv4Packet.AddFragmentData: is called only when the slices are in range; the panics are results of `AddFragment` and end the thread in `Wan.WgDevice`.
- VirtQueue.VirtQueue.KickTx: counts notifications and leaves out the write to the call descriptor.
- VirtQueue.VirtQueue.DrainPending: leaves out the part of a packet written to a chain that turns out too small.
- Fabrial.PiecesAreReadIff: bytes arrive while the server waits or receives a body; that they arrive right behind a length cut short is the subject of Fabrial.ShortLengthIff.
- Session.EverySessionKeeps: is about the messages as read; the recvmsg framing, and the system calls inside a message beyond whether they succeed, are not part of this model; of the poll, only which kick descriptors are registered is.
- Debug builds: overflow panics there and wraps here.
- WireGuard encryption, sockets, polling, wakers and timers: inbound packets are arbitrary bytes, outbound ones end in a list.
- Random packet ids, generated MACs and the UDP port handlers' answers: arbitrary values in every run.
- The encoding of DHCP messages: a message is its kind, a 6-byte hardware address and the requested address; other hardware address lengths are not part of this model.
- The internals of the virtio queue and guest memory libraries: available chains and used entries are sequences, and adding a used entry succeeds.
- Slices taken only to be logged, and the packet capture log.
- IPv6 routing and IPv6 networks, which the router drops or does not use.
- The command line, database, process control, QEMU command building and terminal UI.
