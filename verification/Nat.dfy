/**
 The NAT table of oathgate-net/src/nat.rs, and the history of outbound packets
 it stands for.
 */
module Nat {
  import opened Bytes
  import opened Ipv4

  datatype NatEntry = Tcp(ip: u32, port: u16) | Udp(ip: u32, port: u16) | Icmp(ip: u32, id: u16)

  type Table = map<NatEntry, u32>

  /** Where the source or destination port (or the ICMP id) starts; other protocols have no key. */
  function KeyField(protocol: u8, reply: bool): (r: Option<nat>)
  {
    if protocol == ICMP then Some(4)
    else if protocol == TCP || protocol == UDP then Some(if reply then 2 else 0)
    else None
  }

  function MakeKey(protocol: u8, ip: u32, n: u16): (r: NatEntry)
  {
    if protocol == ICMP then Icmp(ip, n) else if protocol == TCP then Tcp(ip, n) else Udp(ip, n)
  }

  /** The table key of a packet; reading a port past the end of the payload panics. */
  function Key(p: Packet, reply: bool): (r: Outcome<Option<NatEntry>>)
  {
    match KeyField(p.header.protocol, reply)
    case None => Ok(None)
    case Some(at) =>
      if !HasPayload(p) || |Payload(p)| < at + 2 then Panic
      else Ok(Some(MakeKey(p.header.protocol, if reply then p.header.src else p.header.dst, Be16At(Payload(p), at))))
  }

  function Insert(t: Table, p: Packet): (r: Table)
  {
    match Key(p, false)
    case Ok(Some(k)) => t[k := p.header.src]
    case _ => t
  }

  function Lookup(t: Table, p: Packet): (r: Option<u32>)
  {
    match Key(p, true)
    case Ok(Some(k)) => Get(t, k)
    case _ => None
  }

  class NatTable {
    var table: Table

    constructor ()
      ensures table == map[]
    {
      table := map[];
    }

    method InsertPacket(p: Packet)
      requires Key(p, false).Ok?
      modifies this
      ensures table == Insert(old(table), p)
    {
      if p.header.protocol == ICMP {
        PutIcmp(p.header.dst, Be16At(Payload(p), 4), p.header.src);
      } else if p.header.protocol == TCP {
        PutTcp(p.header.dst, Be16At(Payload(p), 0), p.header.src);
      } else if p.header.protocol == UDP {
        PutUdp(p.header.dst, Be16At(Payload(p), 0), p.header.src);
      }
    }

    method PutTcp(dst: u32, port: u16, src: u32)
      modifies this
      ensures table == old(table)[Tcp(dst, port) := src]
    {
      table := table[Tcp(dst, port) := src];
    }

    method PutUdp(dst: u32, port: u16, src: u32)
      modifies this
      ensures table == old(table)[Udp(dst, port) := src]
    {
      table := table[Udp(dst, port) := src];
    }

    method PutIcmp(dst: u32, id: u16, src: u32)
      modifies this
      ensures table == old(table)[Icmp(dst, id) := src]
    {
      table := table[Icmp(dst, id) := src];
    }

    method GetSource(p: Packet) returns (orig: Option<u32>)
      requires Key(p, true).Ok?
      ensures orig == Lookup(table, p)
    {
      if p.header.protocol == ICMP {
        orig := Get(table, Icmp(p.header.src, Be16At(Payload(p), 4)));
      } else if p.header.protocol == TCP {
        orig := Get(table, Tcp(p.header.src, Be16At(Payload(p), 2)));
      } else if p.header.protocol == UDP {
        orig := Get(table, Udp(p.header.src, Be16At(Payload(p), 2)));
      } else {
        orig := None;
      }
    }
  }

  //
  // The table against the history of outbound packets
  //

  /** The table after a sequence of outbound packets. */
  function After(sent: seq<Packet>): (r: Table)
  {
    if sent == [] then map[] else Insert(After(sent[..|sent| - 1]), sent[|sent| - 1])
  }

  /** Packet `i` was sent with key `k`, and no later one has that key and another source. */
  ghost predicate StaysMapped(sent: seq<Packet>, i: nat, k: NatEntry)
  {
    && i < |sent| && Key(sent[i], false) == Ok(Some(k))
    && forall j :: i < j < |sent| && Key(sent[j], false) == Ok(Some(k)) ==> sent[j].header.src == sent[i].header.src
  }

  /** The table maps a key to the source of the latest packet sent with it. */
  lemma {:induction false} TableIsLatest(sent: seq<Packet>, i: nat, k: NatEntry)
    requires StaysMapped(sent, i, k)
    ensures Get(After(sent), k) == Some(sent[i].header.src)
  {
    var n := |sent| - 1;
    if i < n && Key(sent[n], false) != Ok(Some(k)) {
      assert StaysMapped(sent[..n], i, k);
      TableIsLatest(sent[..n], i, k);
    }
  }

  /** A key is in the table exactly when some packet was sent with it. */
  lemma {:induction false} TableDomain(sent: seq<Packet>, k: NatEntry)
    ensures k in After(sent) <==> exists i :: 0 <= i < |sent| && Key(sent[i], false) == Ok(Some(k))
  {
    if sent != [] {
      var n := |sent| - 1;
      TableDomain(sent[..n], k);
      assert k in After(sent) <==> k in After(sent[..n]) || Key(sent[n], false) == Ok(Some(k));
    }
  }

  //
  // Flows
  //

  /** The 16-bit word at `at` of the payload. */
  function Word(p: Packet, at: nat): (r: Option<u16>)
  {
    if HasPayload(p) && at + 2 <= |Payload(p)| then Some(Be16At(Payload(p), at)) else None
  }

  /** The port a packet was sent from, or its ICMP id; ICMP is protocol 1, TCP 6 and UDP 17. */
  function SentFrom(p: Packet): (r: Option<u16>)
  {
    if p.header.protocol in {6, 17} then Word(p, 0) else if p.header.protocol == 1 then Word(p, 4) else None
  }

  /** The port a packet was sent to, or its ICMP id. */
  function SentTo(p: Packet): (r: Option<u16>)
  {
    if p.header.protocol in {6, 17} then Word(p, 2) else if p.header.protocol == 1 then Word(p, 4) else None
  }

  /** Two outbound packets of one protocol to one address, from one port or with one ICMP id. */
  predicate SameFlow(p: Packet, q: Packet)
  {
    && p.header.protocol == q.header.protocol && p.header.dst == q.header.dst
    && SentFrom(p).Some? && SentFrom(p) == SentFrom(q)
  }

  /** A reply: from the address the packet went to, to the port it came from, or with its ICMP id. */
  predicate IsReplyTo(reply: Packet, sent: Packet)
  {
    && reply.header.protocol == sent.header.protocol && reply.header.src == sent.header.dst
    && SentFrom(sent).Some? && SentTo(reply) == SentFrom(sent)
  }

  /**
   The keys tell flows apart and nothing else: a packet has one exactly when it has a port or an
   ICMP id, two packets share one exactly when protocol, destination and port or id agree, and
   a packet is looked up with the key of another exactly when it is a reply to it.
   */
  lemma KeysTellFlowsApart(p: Packet, q: Packet)
    ensures Key(p, false).Ok? && Key(p, false).value.Some? <==> SentFrom(p).Some?
    ensures Key(p, true).Ok? && Key(p, true).value.Some? <==> SentTo(p).Some?
    ensures SentFrom(p).Some? ==> (Key(p, false) == Key(q, false) <==> SameFlow(p, q))
    ensures SentFrom(q).Some? ==> (Key(p, true) == Key(q, false) <==> IsReplyTo(p, q))
  {
  }

  /**
   Looking up a reply returns the source of the packet it answers unless another source
   has sent in the same flow since.
   */
  lemma ReplyFindsSender(sent: seq<Packet>, i: nat, reply: Packet)
    requires i < |sent| && IsReplyTo(reply, sent[i])
    requires forall j :: i < j < |sent| && SameFlow(sent[j], sent[i]) ==> sent[j].header.src == sent[i].header.src
    ensures Lookup(After(sent), reply) == Some(sent[i].header.src)
  {
    hide Key, SentFrom, SentTo, After;
    KeysTellFlowsApart(sent[i], sent[i]);
    KeysTellFlowsApart(reply, sent[i]);
    var k := Key(sent[i], false).value.value;
    forall j | i < j < |sent| && Key(sent[j], false) == Ok(Some(k)) ensures sent[j].header.src == sent[i].header.src {
      KeysTellFlowsApart(sent[i], sent[j]);
    }
    TableIsLatest(sent, i, k);
  }

  /** A packet finds nothing exactly when it is a reply to nothing that was sent. */
  lemma UnaskedFindsNothing(sent: seq<Packet>, p: Packet)
    ensures Lookup(After(sent), p) == None <==> forall i :: 0 <= i < |sent| ==> !IsReplyTo(p, sent[i])
  {
    hide Key, SentFrom, SentTo, After;
    KeysTellFlowsApart(p, p);
    if Key(p, true).Ok? && Key(p, true).value.Some? {
      TableDomain(sent, Key(p, true).value.value);
    }
    forall i | 0 <= i < |sent|
      ensures IsReplyTo(p, sent[i]) <==> SentTo(p).Some? && Key(p, true) == Key(sent[i], false)
    {
      KeysTellFlowsApart(sent[i], sent[i]);
      KeysTellFlowsApart(p, sent[i]);
    }
  }

  /** What is found is the source of the latest packet that the reply answers. */
  lemma {:induction false} FoundIsLatest(sent: seq<Packet>, reply: Packet) returns (i: nat)
    requires Lookup(After(sent), reply).Some?
    ensures i < |sent| && IsReplyTo(reply, sent[i]) && Lookup(After(sent), reply) == Some(sent[i].header.src)
    ensures forall j :: i < j < |sent| ==> !IsReplyTo(reply, sent[j])
  {
    hide Key, SentFrom, SentTo;
    var n := |sent| - 1;
    KeysTellFlowsApart(sent[n], sent[n]);
    KeysTellFlowsApart(reply, sent[n]);
    if IsReplyTo(reply, sent[n]) {
      i := n;
    } else {
      i := FoundIsLatest(sent[..n], reply);
    }
  }

  /** Outbound packets that a reply does not answer never change what it finds. */
  lemma {:induction false} FlowsAreIndependent(sent: seq<Packet>, reply: Packet)
    ensures Lookup(After(sent), reply) == Lookup(After(AnsweredBy(reply, sent)), reply)
  {
    hide Key, SentFrom, SentTo;
    if sent != [] {
      var n := |sent| - 1;
      FlowsAreIndependent(sent[..n], reply);
      KeysTellFlowsApart(sent[n], sent[n]);
      KeysTellFlowsApart(reply, sent[n]);
      var rest := AnsweredBy(reply, sent[..n]);
      if IsReplyTo(reply, sent[n]) {
        assert (rest + [sent[n]])[..|rest|] == rest;
      }
    }
  }

  /** The packets that `reply` answers. */
  function AnsweredBy(reply: Packet, sent: seq<Packet>): (r: seq<Packet>)
  {
    if sent == [] then []
    else
      var rest := AnsweredBy(reply, sent[..|sent| - 1]);
      if IsReplyTo(reply, sent[|sent| - 1]) then rest + [sent[|sent| - 1]] else rest
  }
}
