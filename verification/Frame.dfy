/**
 MAC addresses, ethertypes and Ethernet frames (oathgate-net/src/frame.rs,
 oathgate-net/src/types.rs, oathgate-net/src/types/mac.rs).
 */
module Frame {
  import opened Bytes

  type Mac = s: seq<u8> | |s| == 6 witness [0, 0, 0, 0, 0, 0]

  const BROADCAST: Mac := [0xFF, 0xFF, 0xFF, 0xFF, 0xFF, 0xFF]

  const FRAME_SIZE := 14

  datatype EtherType = IPv4 | IPv6 | ARP {
    function Code(): (r: u16)
    {
      match this
      case IPv4 => 0x0800
      case IPv6 => 0x86DD
      case ARP => 0x0806
    }
  }

  function EtherTypeOf(code: u16): (r: Option<EtherType>)
    ensures forall t: EtherType :: r == Some(t) <==> t.Code() == code
  {
    if code == 0x0800 then Some(IPv4)
    else if code == 0x86DD then Some(IPv6)
    else if code == 0x0806 then Some(ARP)
    else None
  }

  datatype EthernetFrame = EthernetFrame(dst: Mac, src: Mac, ethertype: EtherType)

  datatype EthernetPacket = EthernetPacket(frame: EthernetFrame, payload: seq<u8>)

  /** `EthernetFrame::extract`: the header, and what is left of the packet. */
  function ExtractFrame(pkt: seq<u8>): (r: Option<EthernetPacket>)
  {
    if |pkt| < FRAME_SIZE then None
    else
      match EtherTypeOf(Be16At(pkt, 12))
      case None => None
      case Some(ethertype) =>
        Some(EthernetPacket(EthernetFrame(pkt[0..6], pkt[6..12], ethertype), pkt[14..]))
  }

  /** `EthernetFrame::to_bytes`. */
  function FrameBytes(frame: EthernetFrame): (r: seq<u8>)
    ensures |r| == FRAME_SIZE
  {
    frame.dst + frame.src + ToBe16(frame.ethertype.Code())
  }

  /** Printing the header in front of the payload undoes extraction. */
  lemma ExtractThenPrint(pkt: seq<u8>)
    requires ExtractFrame(pkt).Some?
    ensures var e := ExtractFrame(pkt).value;
            FrameBytes(e.frame) + e.payload == pkt
  {
    var e := ExtractFrame(pkt).value;
    Be16Injective(ToBe16(e.frame.ethertype.Code()), 0, pkt, 12);
  }

  /** Where the fields of a frame are, and which ethertypes are accepted. */
  lemma FrameLayout(pkt: seq<u8>)
    ensures ExtractFrame(pkt).Some? <==> |pkt| >= 14 && Be16At(pkt, 12) in {0x0800, 0x0806, 0x86DD}
    ensures ExtractFrame(pkt).Some? ==>
              var e := ExtractFrame(pkt).value;
              && e.frame.dst == pkt[0..6] && e.frame.src == pkt[6..12] && e.payload == pkt[14..]
              && Be16At(pkt, 12) == (match e.frame.ethertype case IPv4 => 0x0800 case ARP => 0x0806 case IPv6 => 0x86DD)
  {
  }

  /** Extraction undoes printing. */
  lemma PrintThenExtract(e: EthernetPacket)
    ensures ExtractFrame(FrameBytes(e.frame) + e.payload) == Some(e)
  {
    var pkt := FrameBytes(e.frame) + e.payload;
    assert pkt[0..6] == e.frame.dst && pkt[6..12] == e.frame.src && pkt[14..] == e.payload;
    assert Be16At(pkt, 12) == e.frame.ethertype.Code();
  }
}
