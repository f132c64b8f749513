/**
 ARP packets of oathgate-net/src/protocols/arp.rs, for IPv4 and IPv6 addresses.
 */
module Arp {
  import opened Bytes
  import opened Frame

  type Ipv6Addr = s: seq<u8> | |s| == 16 witness Zeros(16)

  datatype IpAddr = V4(ip: u32) | V6(octets: Ipv6Addr)

  datatype ArpPacket = ArpPacket(
    hardwareType: u16, protocolType: EtherType, hardwareLen: u8, protocolLen: u8, operation: u16,
    sha: Mac, spa: IpAddr, tha: Mac, tpa: IpAddr)

  /** `ArpPacket::parse`; slicing past the end of the packet panics. */
  function ParseArp(b: seq<u8>): (r: Outcome<ArpPacket>)
  {
    if |b| < 28 then Err
    else
      match EtherTypeOf(Be16At(b, 2))
      case None => Err
      case Some(protocol) =>
        if Be16At(b, 0) != 1 || b[4] != 6 then Err
        else if |b| < 20 + b[5] as int then Panic
        else if protocol == IPv4 && b[5] == 4 then
          Ok(ArpPacket(1, IPv4, 6, 4, Be16At(b, 6), b[8..14], V4(Be32At(b, 14)), b[18..24], V4(Be32At(b, 24))))
        else if protocol == IPv6 && b[5] == 16 then
          if |b| < 52 then Panic
          else Ok(ArpPacket(1, IPv6, 6, 16, Be16At(b, 6), b[8..14], V6(b[14..30]), b[30..36], V6(b[36..52])))
        else Err
  }

  function Size(a: ArpPacket): (r: nat)
  {
    if a.spa.V4? && a.tpa.V4? then 28 else if a.spa.V6? && a.tpa.V6? then 52 else 0
  }

  /** An Ethernet ARP packet whose lengths and addresses fit its protocol. */
  predicate WellFormed(a: ArpPacket)
  {
    && a.hardwareType == 1 && a.hardwareLen == 6
    && (|| (a.protocolType == IPv4 && a.protocolLen == 4 && a.spa.V4? && a.tpa.V4?)
        || (a.protocolType == IPv6 && a.protocolLen == 16 && a.spa.V6? && a.tpa.V6?))
  }

  function AddrBytes(a: IpAddr): (r: seq<u8>)
    ensures |r| == if a.V4? then 4 else 16
  {
    match a case V4(ip) => ToBe32(ip) case V6(octets) => octets
  }

  /** The fields before the addresses of the protocol. */
  function FixedBytes(a: ArpPacket): (r: seq<u8>)
    ensures |r| == 14
  {
    ToBe16(a.hardwareType) + ToBe16(a.protocolType.Code()) + [a.hardwareLen, a.protocolLen] + ToBe16(a.operation)
    + a.sha
  }

  /** The bytes of a packet; with addresses of two kinds, only the fixed fields are written. */
  function ArpBytes(a: ArpPacket): (r: seq<u8>)
  {
    if a.spa.V4? == a.tpa.V4? then FixedBytes(a) + AddrBytes(a.spa) + a.tha + AddrBytes(a.tpa) else FixedBytes(a)
  }

  /** `as_bytes` into any buffer: a panic if it is too short, and the rest of it stays. */
  method AsBytes(a: ArpPacket, buf: seq<u8>) returns (pkt: Outcome<seq<u8>>)
    ensures pkt == if |buf| < |ArpBytes(a)| then Panic else Ok(ArpBytes(a) + buf[|ArpBytes(a)|..])
  {
    if |buf| < 14 {
      return Panic;
    }
    var p := Splice(buf, 0, ToBe16(a.hardwareType));
    p := Splice(p, 2, ToBe16(a.protocolType.Code()));
    p := p[4 := a.hardwareLen];
    p := p[5 := a.protocolLen];
    p := Splice(p, 6, ToBe16(a.operation));
    p := Splice(p, 8, a.sha);
    assert p == FixedBytes(a) + buf[14..];
    if a.spa.V4? && a.tpa.V4? {
      if |buf| < 28 {
        return Panic;
      }
      p := Splice(p, 14, ToBe32(a.spa.ip));
      p := Splice(p, 18, a.tha);
      p := Splice(p, 24, ToBe32(a.tpa.ip));
    } else if a.spa.V6? && a.tpa.V6? {
      if |buf| < 52 {
        return Panic;
      }
      p := Splice(p, 14, a.spa.octets);
      p := Splice(p, 30, a.tha);
      p := Splice(p, 36, a.tpa.octets);
    }
    assert p == ArpBytes(a) + buf[|ArpBytes(a)|..];
    pkt := Ok(p);
  }

  /** `to_reply`. */
  function Reply(a: ArpPacket, mac: Mac): (r: ArpPacket)
  {
    a.(tpa := a.spa, tha := a.sha, spa := a.tpa, sha := mac, operation := 2)
  }

  /** Printing then parsing a well-formed packet is the identity. */
  lemma PrintThenParse(a: ArpPacket)
    requires WellFormed(a)
    ensures ParseArp(ArpBytes(a)) == Ok(a)
  {
    var b := ArpBytes(a);
    if a.spa.V4? {
      assert b[14..18] == ToBe32(a.spa.ip) && b[24..28] == ToBe32(a.tpa.ip);
      Be32Slice(b, 14);
      Be32Slice(b, 24);
      assert b[8..14] == a.sha && b[18..24] == a.tha;
    } else {
      assert b[8..14] == a.sha && b[14..30] == a.spa.octets && b[30..36] == a.tha && b[36..52] == a.tpa.octets;
    }
  }

  lemma Be32Slice(b: seq<u8>, i: nat)
    requires i + 4 <= |b|
    ensures Be32At(b, i) == Be32At(b[i..i + 4], 0)
  {
  }

  /** What parses is well formed, and printing it gives back the bytes it was parsed from. */
  lemma ParseThenPrint(b: seq<u8>)
    requires ParseArp(b).Ok?
    ensures WellFormed(ParseArp(b).value)
    ensures Size(ParseArp(b).value) <= |b|
    ensures ArpBytes(ParseArp(b).value) == b[..Size(ParseArp(b).value)]
  {
    var a := ParseArp(b).value;
    ToBe16Of(b, 0);
    ToBe16Of(b, 2);
    ToBe16Of(b, 6);
    if a.spa.V4? {
      ToBe32Of(b, 14);
      ToBe32Of(b, 24);
      Segments(b, a, 4);
    } else {
      Segments(b, a, 16);
    }
  }

  /** Which packets parse, which panic, and where the fields are (RFC 826). */
  lemma ArpLayout(b: seq<u8>)
    ensures ParseArp(b).Ok? <==>
              && |b| >= 28 && Be16At(b, 0) == 1 && b[4] == 6
              && ((Be16At(b, 2) == 0x0800 && b[5] == 4) || (Be16At(b, 2) == 0x86DD && b[5] == 16 && |b| >= 52))
    ensures ParseArp(b) == Panic <==>
              && |b| >= 28 && Be16At(b, 0) == 1 && b[4] == 6 && Be16At(b, 2) in {0x0800, 0x0806, 0x86DD}
              && |b| < if Be16At(b, 2) == 0x86DD && b[5] == 16 then 52 else 20 + b[5] as int
    ensures ParseArp(b).Ok? ==>
              var a := ParseArp(b).value;
              && a.operation == Be16At(b, 6) && a.sha == b[8..14]
              && (b[5] == 4 ==> a.spa == V4(Be32At(b, 14)) && a.tha == b[18..24] && a.tpa == V4(Be32At(b, 24)))
              && (b[5] == 16 ==> a.spa == V6(b[14..30]) && a.tha == b[30..36] && a.tpa == V6(b[36..52]))
  {
  }

  lemma Segments(b: seq<u8>, a: ArpPacket, n: nat)
    requires |b| >= 20 + 2 * n
    requires ToBe16(a.hardwareType) == b[0..2] && ToBe16(a.protocolType.Code()) == b[2..4]
    requires a.hardwareLen == b[4] && a.protocolLen == b[5] && ToBe16(a.operation) == b[6..8]
    requires a.sha == b[8..14] && AddrBytes(a.spa) == b[14..14 + n]
    requires a.tha == b[14 + n..20 + n] && AddrBytes(a.tpa) == b[20 + n..20 + 2 * n]
    ensures ArpBytes(a) == b[..20 + 2 * n]
  {
  }
}
