/**
 IPv4 headers and packets of oathgate-net/src/ipv4.rs: parsing, printing,
 fragment assembly and address rewriting.
 */
module Ipv4 {
  import opened Bytes
  import Bits
  import opened Checksum

  const ICMP: u8 := 1
  const TCP: u8 := 6
  const UDP: u8 := 17

  datatype Header = Header(
    version: u8, ihl: u8, length: u16, id: u16, flags: u8, fragOffset: u16,
    ttl: u8, protocol: u8, checksum: u16, src: u32, dst: u32)

  datatype Packet = Packet(header: Header, data: seq<u8>)

  //
  // Parsing and printing headers
  //

  /** `extract_from_slice`: fewer than 20 bytes with a short header length panic. */
  function ParseHeader(hdr: seq<u8>): (r: Outcome<Header>)
  {
    if |hdr| == 0 then Err
    else if |hdr| < hdr[0] % 16 * 4 then Err
    else if |hdr| < 20 then Panic
    else Ok(Header(hdr[0] / 16, hdr[0] % 16, Be16At(hdr, 2), Be16At(hdr, 4), hdr[6] / 32,
                   Be16At(hdr, 6) % 0x2000 * 8, hdr[8], hdr[9], Be16At(hdr, 10), Be32At(hdr, 12), Be32At(hdr, 16)))
  }

  /** The three high bits of `flags << 13 | offset`. */
  function HighBits(flags: u8, offset: u16): (r: nat)
    ensures r < 8
    ensures offset < 0x2000 ==> r == flags % 8
  {
    assert Bits.Pow2(3) == 8;
    Bits.OrBound(flags % 8, offset / 0x2000, 3);
    Bits.OrZero(flags % 8);
    Bits.Or(flags % 8, offset / 0x2000)
  }

  /** `flags << 13 | offset`, the offset being in bytes and not in 8-byte units. */
  function FlagsFrag(h: Header): (r: u16)
  {
    HighBits(h.flags, h.fragOffset) * 0x2000 + h.fragOffset % 0x2000
  }

  /** The header with a zeroed checksum; `tos` is the byte the printer leaves alone. */
  function HeaderWords(h: Header, tos: u8): (r: seq<u8>)
    ensures |r| == 20
  {
    var ff := FlagsFrag(h);
    var s, d := ToBe32(h.src), ToBe32(h.dst);
    [h.version % 16 * 16 + 5, tos, h.length / 0x100, h.length % 0x100, h.id / 0x100, h.id % 0x100,
     ff / 0x100, ff % 0x100, h.ttl, h.protocol, 0, 0,
     s[0], s[1], s[2], s[3], d[0], d[1], d[2], d[3]]
  }

  /** `Ipv4Header::as_bytes` over the first 20 bytes of `buf`. */
  function PrintHeader(h: Header, buf: seq<u8>): (r: seq<u8>)
    requires |buf| >= 20
    ensures |r| == |buf|
  {
    var words := HeaderWords(h, buf[1]);
    Splice(words, 10, ToBe16(FoldOnce(WordSum(words)))) + buf[20..]
  }

  /** `Ipv4Header::as_bytes`: the fields, then the checksum over them. */
  method HeaderAsBytes(h: Header, buf: seq<u8>) returns (rpkt: seq<u8>)
    requires |buf| >= 20
    ensures rpkt == PrintHeader(h, buf)
  {
    rpkt := WriteFields(h, buf);
    assert rpkt[0..20] == HeaderWords(h, buf[1]);
    var csum := ComputeChecksum(rpkt[0..20]);
    rpkt := Splice(rpkt, 10, ToBe16(csum));
  }

  method WriteFields(h: Header, buf: seq<u8>) returns (rpkt: seq<u8>)
    requires |buf| >= 20
    ensures rpkt == HeaderWords(h, buf[1]) + buf[20..]
  {
    var flagsFrag := FlagsFrag(h);
    rpkt := buf[0 := h.version % 16 * 16 + 5];
    rpkt := Splice(rpkt, 2, ToBe16(h.length));
    rpkt := Splice(rpkt, 4, ToBe16(h.id));
    rpkt := Splice(rpkt, 6, ToBe16(flagsFrag));
    rpkt := rpkt[8 := h.ttl];
    rpkt := rpkt[9 := h.protocol];
    rpkt := Splice(rpkt, 10, [0x00, 0x00]);
    rpkt := Splice(rpkt, 12, ToBe32(h.src));
    rpkt := Splice(rpkt, 16, ToBe32(h.dst));
  }

  /** The value of the printed flags and offset word. */
  lemma FlagsFragParts(h: Header)
    ensures FlagsFrag(h) % 0x2000 == h.fragOffset % 0x2000
    ensures h.fragOffset == 0 ==> FlagsFrag(h) == h.flags % 8 * 0x2000
  {
  }

  /** No multiple of 8 but 0 survives being printed in bytes and read in 8-byte units. */
  lemma OffsetFixpoint(off: u16)
    ensures off % 0x2000 * 8 == off <==> off == 0
  {
    var q, r := off / 0x2000, off % 0x2000;
    assert off == q * 0x2000 + r && q < 8;
    if 8 * r == off {
      assert 7 * r == 0x2000 * q;
    }
  }

  /** `out` holds the fields of `h`, and the bytes of `buf` the printer leaves alone. */
  ghost predicate Printed(h: Header, buf: seq<u8>, out: seq<u8>)
    requires |buf| >= 20
  {
    && |out| == |buf|
    && out[0] == h.version % 16 * 16 + 5 && out[1] == buf[1]
    && Be16At(out, 2) == h.length && Be16At(out, 4) == h.id && Be16At(out, 6) == FlagsFrag(h)
    && out[8] == h.ttl && out[9] == h.protocol
    && Be32At(out, 12) == h.src && Be32At(out, 16) == h.dst
    && (forall k :: 20 <= k < |buf| ==> out[k] == buf[k])
  }

  lemma PrintedFields(h: Header, buf: seq<u8>)
    requires |buf| >= 20
    ensures Printed(h, buf, PrintHeader(h, buf))
    ensures Be16At(PrintHeader(h, buf), 10) == HeaderSum(PrintHeader(h, buf))
  {
    assert Be32At(ToBe32(h.src), 0) == h.src;
    assert Be32At(ToBe32(h.dst), 0) == h.dst;
    var out := PrintHeader(h, buf);
    assert Splice(out[..20], 10, [0, 0]) == HeaderWords(h, buf[1]);
  }

  lemma HighOfWord(b6: u8, b7: u8, high: nat, low: nat)
    requires high < 8 && low < 0x2000 && b6 as int * 0x100 + b7 == high * 0x2000 + low
    ensures b6 / 32 == high
  {
  }

  /** What parsing makes of a printed header. */
  lemma PrintedParses(h: Header, buf: seq<u8>, out: seq<u8>)
    requires |buf| >= 20 && h.version < 16 && h.flags < 8
    requires Printed(h, buf, out)
    ensures ParseHeader(out) == Ok(h.(ihl := 5, flags := HighBits(h.flags, h.fragOffset),
                                      fragOffset := h.fragOffset % 0x2000 * 8, checksum := Be16At(out, 10)))
  {
    FlagsParse(h, out[6], out[7], Be16At(out, 6));
    VersionParses(h.version);
    hide Be16At, Be32At, FlagsFrag, HighBits;
  }

  lemma FlagsParse(h: Header, b6: u8, b7: u8, word: nat)
    requires word == FlagsFrag(h) == b6 as int * 0x100 + b7
    ensures b6 / 32 == HighBits(h.flags, h.fragOffset) && word % 0x2000 == h.fragOffset % 0x2000
  {
    hide HighBits;
    HighOfWord(b6, b7, HighBits(h.flags, h.fragOffset), h.fragOffset % 0x2000);
  }

  lemma VersionParses(version: nat)
    requires version < 16
    ensures (version % 16 * 16 + 5) / 16 == version && (version % 16 * 16 + 5) % 16 == 5
  {
  }

  lemma PrintedRoundTrip(h: Header, buf: seq<u8>, out: seq<u8>)
    requires |buf| >= 20 && h.version < 16 && h.flags < 8
    requires Printed(h, buf, out)
    ensures ParseHeader(out).Ok?
    ensures ParseHeader(out).value.(checksum := h.checksum) == h <==> h.ihl == 5 && h.fragOffset == 0
  {
    PrintedParses(h, buf, out);
    OffsetFixpoint(h.fragOffset);
  }

  /**
   Printing then parsing keeps every field but the checksum exactly for headers
   without options and with a zero fragment offset.
   */
  lemma HeaderRoundTripIff(h: Header, buf: seq<u8>)
    requires |buf| >= 20 && h.version < 16 && h.flags < 8
    ensures ParseHeader(PrintHeader(h, buf)).Ok?
    ensures ParseHeader(PrintHeader(h, buf)).value.(checksum := h.checksum) == h
            <==> h.ihl == 5 && h.fragOffset == 0
  {
    PrintedFields(h, buf);
    PrintedRoundTrip(h, buf, PrintHeader(h, buf));
  }

  //
  // Packets
  //

  /** `Ipv4Packet::parse`. */
  function Parse(data: seq<u8>): (r: Outcome<Packet>)
  {
    match ParseHeader(data)
    case Ok(h) => Ok(Packet(h, data))
    case Err => Err
    case Panic => Panic
  }

  /** Bytes parse exactly if they hold 20 bytes and the header they announce. */
  lemma ParsesIff(data: seq<u8>)
    ensures Parse(data).Ok? <==> |data| >= 20 && |data| >= data[0] % 16 * 4
    ensures Parse(data) == Panic <==> 0 < |data| < 20 && |data| >= data[0] % 16 * 4
    ensures Parse(data).Ok? ==> Parse(data).value.data == data && HasPayload(Parse(data).value)
  {
  }

  /** `payload` slices at the header length and panics past the end. */
  predicate HasPayload(p: Packet)
  {
    p.header.ihl as int * 4 <= |p.data|
  }

  function Payload(p: Packet): (r: seq<u8>)
    requires HasPayload(p)
  {
    p.data[p.header.ihl as int * 4..]
  }

  predicate MoreFragments(p: Packet)
  {
    p.header.flags % 2 == 1
  }

  /** The parsed header is what the bytes say, the cached checksum aside. */
  predicate Agrees(p: Packet)
  {
    ParseHeader(p.data).Ok? && ParseHeader(p.data).value.(checksum := p.header.checksum) == p.header
  }

  //
  // Rewriting addresses
  //

  /** Where TCP and UDP keep their checksum in the payload. */
  function ChecksumField(protocol: u8): (r: Option<nat>)
  {
    if protocol == TCP then Some(16) else if protocol == UDP then Some(6) else None
  }

  /** The edits do not panic: the header and the transport checksum are there. */
  predicate Editable(p: Packet)
  {
    && |p.data| >= 20
    && HasPayload(p)
    && (ChecksumField(p.header.protocol).Some? ==> ChecksumField(p.header.protocol).value + 2 <= |Payload(p)|)
  }

  /** The checksum the code computes for the transport payload, its field taken as zero. */
  function TransportSum(p: Packet): (r: u16)
    requires Editable(p) && ChecksumField(p.header.protocol).Some?
  {
    var zeroed := Splice(Payload(p), ChecksumField(p.header.protocol).value, [0, 0]);
    FoldOnce(PseudoSum(p.header.src, p.header.dst, p.header.protocol, |zeroed|) + WordSum(zeroed))
  }

  /** `fix_transport_checksum`. */
  function FixTransport(p: Packet): (r: Packet)
    requires Editable(p)
  {
    match ChecksumField(p.header.protocol)
    case None => p
    case Some(s) => p.(data := Splice(p.data, p.header.ihl as int * 4 + s, ToBe16(TransportSum(p))))
  }

  /** `masquerade` and `unmasquerade` with both addresses given. */
  function Readdress(p: Packet, src: u32, dst: u32): (r: Packet)
    requires Editable(p)
    ensures |r.data| == |p.data|
    ensures r.header == p.header.(src := src, dst := dst)
  {
    var h := p.header.(src := src, dst := dst);
    FixTransport(Packet(h, PrintHeader(h, p.data)))
  }

  function Masquerade(p: Packet, ip: u32): (r: Packet)
    requires Editable(p)
  {
    Readdress(p, ip, p.header.dst)
  }

  function Unmasquerade(p: Packet, ip: u32): (r: Packet)
    requires Editable(p)
  {
    Readdress(p, p.header.src, ip)
  }

  /** The bytes a rewrite may change: header checksum, addresses, transport checksum. */
  predicate InWindow(p: Packet, k: nat)
  {
    || 10 <= k < 20
    || (ChecksumField(p.header.protocol).Some?
        && var c := p.header.ihl as int * 4 + ChecksumField(p.header.protocol).value; c <= k < c + 2)
  }

  function HeaderSum(data: seq<u8>): (r: u16)
    requires |data| >= 20
  {
    FoldOnce(WordSum(Splice(data[..20], 10, [0, 0])))
  }

  /** Both checksums are the ones the code computes. */
  predicate Sealed(p: Packet)
    requires Editable(p)
  {
    && Be16At(p.data, 10) == HeaderSum(p.data)
    && (ChecksumField(p.header.protocol).Some? ==>
          Be16At(p.data, p.header.ihl as int * 4 + ChecksumField(p.header.protocol).value) == TransportSum(p))
  }

  lemma FlagsWord(b6: u8, b7: u8)
    requires (b6 as int * 0x100 + b7) % 0x2000 == 0
    ensures b6 as int * 0x100 + b7 == b6 / 32 * 0x2000
  {
  }

  /** Header checksum and addresses aside, printing an agreeing header changes nothing. */
  lemma PrintKeepsBytes(p: Packet, h: Header, out: seq<u8>)
    requires Agrees(p) && p.header.ihl == 5 && p.header.fragOffset == 0
    requires h == p.header.(src := h.src, dst := h.dst)
    requires Printed(h, p.data, out)
    ensures forall k :: 0 <= k < |p.data| && !(10 <= k < 20) ==> out[k] == p.data[k]
  {
    FlagsFragParts(h);
    FlagsWord(p.data[6], p.data[7]);
    Be16Injective(out, 2, p.data, 2);
    Be16Injective(out, 4, p.data, 4);
    Be16Injective(out, 6, p.data, 6);
  }

  lemma HeaderSumLocal(a: seq<u8>, b: seq<u8>)
    requires |a| >= 20 && |b| >= 20
    requires forall k :: 0 <= k < 20 && !(10 <= k < 12) ==> a[k] == b[k]
    ensures HeaderSum(a) == HeaderSum(b)
  {
    assert Splice(a[..20], 10, [0, 0]) == Splice(b[..20], 10, [0, 0]);
  }

  lemma TransportSumLocal(p: Packet, q: Packet)
    requires Editable(p) && Editable(q) && p.header.ihl == q.header.ihl == 5
    requires p.header.protocol == q.header.protocol && ChecksumField(p.header.protocol).Some?
    requires p.header.src == q.header.src && p.header.dst == q.header.dst && |p.data| == |q.data|
    requires forall k :: 20 <= k < |p.data| && !InWindow(p, k) ==> p.data[k] == q.data[k]
    ensures TransportSum(p) == TransportSum(q)
  {
    var s := ChecksumField(p.header.protocol).value;
    assert Splice(Payload(p), s, [0, 0]) == Splice(Payload(q), s, [0, 0]);
  }

  /** `q` is `p` with new addresses and both checksums recomputed, and nothing else. */
  ghost predicate MinimalEdit(p: Packet, q: Packet, src: u32, dst: u32)
  {
    && q.header == p.header.(src := src, dst := dst)
    && |q.data| == |p.data| >= 20
    && (forall k :: 0 <= k < |p.data| && !InWindow(p, k) ==> q.data[k] == p.data[k])
    && Be32At(q.data, 12) == src && Be32At(q.data, 16) == dst
    && Editable(q) && Sealed(q) && Agrees(q)
  }

  /**
   Rewriting addresses is a minimal edit on packets without options and with a zero
   fragment offset: only the window changes, both checksums come out as the code
   computes them, and header and bytes still agree.
   */
  lemma ReaddressIsMinimal(p: Packet, src: u32, dst: u32)
    requires Editable(p) && Agrees(p) && p.header.ihl == 5 && p.header.fragOffset == 0
    ensures MinimalEdit(p, Readdress(p, src, dst), src, dst)
  {
    var h := p.header.(src := src, dst := dst);
    var m := Packet(h, PrintHeader(h, p.data));
    var q := Readdress(p, src, dst);
    PrintedFields(h, p.data);
    PrintKeepsBytes(p, h, m.data);
    HeaderRoundTripIff(h, p.data);
    FixTransportIsLocal(m);
  }

  lemma ParseLocal(a: seq<u8>, b: seq<u8>)
    requires |a| == |b| >= 20 && forall k :: 0 <= k < 20 ==> a[k] == b[k]
    ensures ParseHeader(a) == ParseHeader(b)
  {
  }

  lemma FixTransportIsLocal(m: Packet)
    requires Editable(m) && m.header.ihl == 5 && Be16At(m.data, 10) == HeaderSum(m.data) && Agrees(m)
    ensures var q := FixTransport(m);
            && q.header == m.header && |q.data| == |m.data|
            && (forall k :: 0 <= k < |m.data| && (!InWindow(m, k) || k < 20) ==> q.data[k] == m.data[k])
            && Editable(q) && Sealed(q) && Agrees(q)
  {
    if ChecksumField(m.header.protocol).Some? {
      FieldIsSealed(m, FixTransport(m), 20 + ChecksumField(m.header.protocol).value);
    }
  }

  lemma FieldIsSealed(m: Packet, q: Packet, c: nat)
    requires Editable(m) && m.header.ihl == 5 && Be16At(m.data, 10) == HeaderSum(m.data) && Agrees(m)
    requires ChecksumField(m.header.protocol).Some? && c == 20 + ChecksumField(m.header.protocol).value
    requires q.header == m.header && |q.data| == |m.data|
    requires forall k :: 0 <= k < |m.data| && !(c <= k < c + 2) ==> q.data[k] == m.data[k]
    requires Be16At(q.data, c) == TransportSum(m)
    ensures Editable(q) && Sealed(q) && Agrees(q)
  {
    HeaderSumLocal(m.data, q.data);
    ParseLocal(m.data, q.data);
    TransportSumLocal(m, q);
  }

  lemma OptionsAreDamaged(p: Packet, src: u32, dst: u32)
    requires Editable(p) && Agrees(p) && p.header.ihl != 5
    ensures !InWindow(p, 0) && Readdress(p, src, dst).data[0] != p.data[0]
  {
    var h := p.header.(src := src, dst := dst);
    var m := Packet(h, PrintHeader(h, p.data));
    PrintedFields(h, p.data);
    VersionByteDiffers(p, h, m.data);
    FixTransportKeepsByte(m, 0);
  }

  lemma VersionByteDiffers(p: Packet, h: Header, out: seq<u8>)
    requires Agrees(p) && p.header.ihl != 5 && Printed(h, p.data, out)
    ensures out[0] != p.data[0]
  {
  }

  lemma FixTransportKeepsByte(m: Packet, k: nat)
    requires Editable(m) && k < |m.data| && !InWindow(m, k)
    ensures FixTransport(m).data[k] == m.data[k]
  {
  }

  lemma OffsetIsDamaged(p: Packet, src: u32, dst: u32)
    requires Editable(p) && Agrees(p) && p.header.ihl == 5 && p.header.fragOffset != 0
    ensures !InWindow(p, 6) && !InWindow(p, 7)
    ensures Be16At(Readdress(p, src, dst).data, 6) != Be16At(p.data, 6)
  {
    var h := p.header.(src := src, dst := dst);
    var m := Packet(h, PrintHeader(h, p.data));
    PrintedFields(h, p.data);
    OffsetWordDiffers(p, h, m.data);
    FixTransportKeepsByte(m, 6);
    FixTransportKeepsByte(m, 7);
  }

  lemma OffsetWordDiffers(p: Packet, h: Header, out: seq<u8>)
    requires Agrees(p) && p.header.fragOffset != 0 && h.fragOffset == p.header.fragOffset
    requires Printed(h, p.data, out)
    ensures Be16At(out, 6) != Be16At(p.data, 6)
  {
    FlagsFragParts(h);
    OffsetFixpoint(h.fragOffset);
  }

  //
  // What goes out, in bytes
  //

  /** The bytes of the checksum of TCP (protocol 6) and UDP (17). */
  predicate InTransportChecksum(p: Packet, k: nat)
  {
    var start := p.header.ihl as int * 4;
    || (p.header.protocol == 6 && start + 16 <= k < start + 18)
    || (p.header.protocol == 17 && start + 6 <= k < start + 8)
  }

  /** What a receiver that folds once like the code computes over intact data. */
  predicate Verifies(data: seq<u8>)
  {
    FoldOnce(WordSum(data)) in {0, 0xFFFF}
  }

  /**
   The bytes are the packet's with the two addresses in their place: nothing behind the header
   but the transport checksum differs, nor, for a whole packet without options, anything before the
   header checksum, and both checksums verify.
   */
  ghost predicate Rewritten(p: Packet, bytes: seq<u8>, src: u32, dst: u32)
  {
    var start := p.header.ihl as int * 4;
    && |bytes| == |p.data| && 20 <= start <= |bytes|
    && Be32At(bytes, 12) == src && Be32At(bytes, 16) == dst
    && (forall k :: 20 <= k < |bytes| && !InTransportChecksum(p, k) ==> bytes[k] == p.data[k])
    && (start == 20 && p.header.fragOffset == 0 && Agrees(p) ==> bytes[..10] == p.data[..10])
    && Verifies(bytes[..20])
    && (p.header.protocol in {6, 17} && |bytes| <= 0x1_FFF0 ==>
          Verifies(PseudoHeader(src, dst, p.header.protocol, |bytes| - start) + bytes[start..]))
  }

  lemma HeaderVerifies(data: seq<u8>)
    requires |data| >= 20 && Be16At(data, 10) == HeaderSum(data)
    ensures Verifies(data[..20])
  {
    var blank := Splice(data[..20], 10, [0, 0]);
    SealedDataVerifies(0, blank, 10);
    ToBe16Of(data, 10);
    assert Splice(blank, 10, ToBe16(HeaderSum(data))) == data[..20];
  }

  lemma TransportVerifies(m: Packet, q: Packet)
    requires Editable(m) && ChecksumField(m.header.protocol).Some? && |m.data| <= 0x1_FFF0
    requires q == FixTransport(m)
    ensures HasPayload(q)
    ensures Verifies(PseudoHeader(m.header.src, m.header.dst, m.header.protocol, |Payload(q)|) + Payload(q))
  {
    hide PseudoHeader, PseudoSum, WordSum, FoldOnce;
    var field := ChecksumField(m.header.protocol).value;
    var zeroed := Splice(Payload(m), field, [0, 0]);
    SealedDataVerifies(PseudoSum(m.header.src, m.header.dst, m.header.protocol, |zeroed|), zeroed, field);
    assert Payload(q) == Splice(zeroed, field, ToBe16(TransportSum(m)));
    PseudoSumIs(m.header.src, m.header.dst, m.header.protocol, |zeroed|, Payload(q));
  }

  lemma FixTransportLeaves(m: Packet, q: Packet)
    requires Editable(m) && m.header.ihl >= 5 && q == FixTransport(m)
    ensures |q.data| == |m.data| && q.data[..20] == m.data[..20]
    ensures Be32At(q.data, 12) == Be32At(m.data, 12) && Be32At(q.data, 16) == Be32At(m.data, 16)
    ensures forall k :: 20 <= k < |q.data| && !InTransportChecksum(m, k) ==> q.data[k] == m.data[k]
  {
    hide TransportSum;
  }

  /** A rewrite puts the two addresses in their place and does nothing else. */
  lemma ReaddressRewrites(p: Packet, src: u32, dst: u32)
    requires Editable(p) && p.header.ihl >= 5
    ensures Rewritten(p, Readdress(p, src, dst).data, src, dst)
  {
    hide PrintHeader, FixTransport, Verifies, HeaderSum, Agrees, PseudoHeader;
    var h := p.header.(src := src, dst := dst);
    var m := Packet(h, PrintHeader(h, p.data));
    var q := Readdress(p, src, dst);
    PrintedFields(h, p.data);
    FixTransportLeaves(m, q);
    HeaderVerifies(m.data);
    if p.header.ihl == 5 && p.header.fragOffset == 0 && Agrees(p) {
      PrintKeepsBytes(p, h, m.data);
      assert q.data[..10] == m.data[..20][..10] == p.data[..10];
    }
    if p.header.protocol in {6, 17} && |p.data| <= 0x1_FFF0 {
      TransportVerifies(m, q);
    }
  }

  /** A packet on its way out has a new source, and one on its way in a new destination. */
  lemma OneAddressIsRewritten(p: Packet, ip: u32)
    requires Editable(p) && p.header.ihl >= 5
    ensures Masquerade(p, ip).header == p.header.(src := ip)
    ensures Rewritten(p, Masquerade(p, ip).data, ip, p.header.dst)
    ensures Unmasquerade(p, ip).header == p.header.(dst := ip)
    ensures Rewritten(p, Unmasquerade(p, ip).data, p.header.src, ip)
  {
    hide Rewritten, Readdress;
    ReaddressRewrites(p, ip, p.header.dst);
    ReaddressRewrites(p, p.header.src, ip);
  }

  /** Outside that case the rewrite also damages the version byte or the fragment word. */
  lemma MinimalEditIff(p: Packet, src: u32, dst: u32)
    requires Editable(p) && Agrees(p)
    ensures (forall k :: 0 <= k < |p.data| && !InWindow(p, k) ==> Readdress(p, src, dst).data[k] == p.data[k])
            <==> p.header.ihl == 5 && p.header.fragOffset == 0
  {
    if p.header.ihl != 5 {
      OptionsAreDamaged(p, src, dst);
    } else if p.header.fragOffset != 0 {
      OffsetIsDamaged(p, src, dst);
    } else {
      ReaddressIsMinimal(p, src, dst);
    }
  }

  /** There and back, only the checksum fields may differ, and they are the code's. */
  lemma RewriteBack(p: Packet, q: Packet, r: Packet, src: u32, dst: u32)
    requires Editable(p) && Agrees(p) && p.header.ihl == 5
    requires MinimalEdit(p, q, src, dst) && MinimalEdit(q, r, p.header.src, p.header.dst)
    ensures r.header == p.header
    ensures forall k :: 0 <= k < |p.data| && (!InWindow(p, k) || 12 <= k < 20) ==> r.data[k] == p.data[k]
  {
    Be32Bytes(r.data, p.data, 12);
    Be32Bytes(r.data, p.data, 16);
  }

  lemma Be32Bytes(a: seq<u8>, b: seq<u8>, i: nat)
    requires i + 4 <= |a| && i + 4 <= |b| && Be32At(a, i) == Be32At(b, i)
    ensures forall k :: i <= k < i + 4 ==> a[k] == b[k]
  {
    Be16Injective(a, i, b, i);
    Be16Injective(a, i + 2, b, i + 2);
  }

  /**
   Rewriting the addresses and rewriting them back restores the packet's bytes exactly
   when the original carried the checksums the code computes.
   */
  lemma RewriteBackRestoresIff(p: Packet, src: u32, dst: u32)
    requires Editable(p) && Agrees(p) && p.header.ihl == 5 && p.header.fragOffset == 0
    ensures Editable(Readdress(p, src, dst))
    ensures Readdress(Readdress(p, src, dst), p.header.src, p.header.dst).data == p.data <==> Sealed(p)
  {
    var q := Readdress(p, src, dst);
    ReaddressIsMinimal(p, src, dst);
    ReaddressIsMinimal(q, p.header.src, p.header.dst);
    var r := Readdress(q, p.header.src, p.header.dst);
    RewriteBack(p, q, r, src, dst);
    EqualUpToChecksums(p, r);
  }

  lemma EqualUpToChecksums(p: Packet, r: Packet)
    requires Editable(p) && p.header.ihl == 5 && r.header == p.header && |r.data| == |p.data|
    requires forall k :: 0 <= k < |p.data| && (!InWindow(p, k) || 12 <= k < 20) ==> r.data[k] == p.data[k]
    requires Editable(r) && Sealed(r)
    ensures r.data == p.data <==> Sealed(p)
  {
    assert r.data == p.data ==> r == p;
    HeaderSumLocal(p.data, r.data);
    if ChecksumField(p.header.protocol).Some? {
      TransportSumLocal(p, r);
    }
    if Sealed(p) {
      Be16Injective(p.data, 10, r.data, 10);
      if ChecksumField(p.header.protocol).Some? {
        var c := 20 + ChecksumField(p.header.protocol).value;
        Be16Injective(p.data, c, r.data, c);
      }
      assert r.data == p.data;
    }
  }

  //
  // Fragment assembly
  //

  /** `add_fragment_data`; the length field wraps at 16 bits. */
  function AddFragment(p: Packet, offset: u16, frag: seq<u8>): (r: Outcome<Packet>)
  {
    if !HasPayload(p) then Panic
    else
      var end := |Payload(p)|;
      if offset == end then
        Ok(Packet(p.header.(length := (p.header.length + |frag|) % 0x1_0000), p.data + frag))
      else if offset > end then
        Ok(Packet(p.header.(length := (offset + |frag|) % 0x1_0000), Resize(p.data, offset) + frag))
      else if offset + |frag| > |p.data| then Panic
      else Ok(p.(data := Splice(p.data, offset, frag)))
  }

  /** `Vec::resize` with zeros. */
  function Resize(s: seq<u8>, n: nat): (r: seq<u8>)
    ensures |r| == n
  {
    if n <= |s| then s[..n] else s + Zeros(n - |s|)
  }

  /** `finalize`: an unfragmented header, printed over the data. */
  function Finalize(p: Packet): (r: Outcome<Packet>)
  {
    if |p.data| < 20 then Panic
    else
      var h := p.header.(flags := 0, fragOffset := 0);
      Ok(Packet(h, PrintHeader(h, p.data)))
  }

  /** The fragment ends up at its offset of the payload, after what was there before it. */
  predicate Lands(p: Packet, offset: u16, frag: seq<u8>)
    requires HasPayload(p)
  {
    match AddFragment(p, offset, frag)
    case Ok(q) =>
      && HasPayload(q)
      && offset + |frag| <= |Payload(q)| && offset <= |Payload(p)|
      && Payload(q)[offset..offset + |frag|] == frag
      && Payload(q)[..offset] == Payload(p)[..offset]
    case _ => false
  }

  /**
   Every fragment of a given size lands where it belongs exactly when its offset is the
   end of the payload so far: the gap and overlap branches count from the packet start.
   */
  lemma FragmentsLandIff(p: Packet, offset: u16, n: nat)
    requires HasPayload(p) && p.header.ihl > 0 && n > 0
    ensures (forall frag: seq<u8> :: |frag| == n ==> Lands(p, offset, frag)) <==> offset == |Payload(p)|
  {
    if offset == |Payload(p)| {
      forall frag: seq<u8> | |frag| == n ensures Lands(p, offset, frag) {
        InOrderLands(p, offset, frag);
      }
    } else if offset < |Payload(p)| {
      OverlapMisses(p, offset, n);
    } else {
      assert !Lands(p, offset, Zeros(n));
    }
  }

  lemma InOrderLands(p: Packet, offset: u16, frag: seq<u8>)
    requires HasPayload(p) && offset == |Payload(p)|
    ensures Lands(p, offset, frag)
    ensures AddFragment(p, offset, frag).Ok? && HasPayload(AddFragment(p, offset, frag).value)
    ensures Payload(AddFragment(p, offset, frag).value) == Payload(p) + frag
  {
    assert Payload(AddFragment(p, offset, frag).value) == Payload(p) + frag;
  }

  /**
   Anywhere else a fragment is put at its offset of the packet, a header's length before its place,
   with everything in front of it kept and zeros in a gap; reaching from inside the payload past its
   end is a panic.
   */
  lemma OffTheEnd(p: Packet, offset: u16, frag: seq<u8>)
    requires HasPayload(p) && offset != |Payload(p)|
    ensures AddFragment(p, offset, frag) == Panic <==> offset < |Payload(p)| && offset + |frag| > |p.data|
    ensures match AddFragment(p, offset, frag)
            case Ok(q) =>
              && offset + |frag| <= |q.data| && q.data[offset..offset + |frag|] == frag
              && (forall k :: 0 <= k < offset ==> q.data[k] == if k < |p.data| then p.data[k] else 0)
              && (if offset < |Payload(p)|
                  then q.header == p.header && |q.data| == |p.data|
                       && q.data[offset + |frag|..] == p.data[offset + |frag|..]
                  else |q.data| == offset + |frag| && q.header == p.header.(length := (offset + |frag|) % 0x1_0000))
            case Err => false
            case Panic => true
  {
  }

  lemma PayloadAt(p: Packet, k: nat)
    requires HasPayload(p) && k < |Payload(p)|
    ensures Payload(p)[k] == p.data[k + p.header.ihl as int * 4]
  {
  }

  lemma OverlapMisses(p: Packet, offset: u16, n: nat)
    requires HasPayload(p) && p.header.ihl > 0 && n > 0 && offset < |Payload(p)|
    ensures exists frag: seq<u8> :: |frag| == n && !Lands(p, offset, frag)
  {
    var hl := p.header.ihl as int * 4;
    var there := if n > hl then 0 else p.data[offset + hl];
    var first: u8 := if there == 0 then 1 else 0;
    var frag: seq<u8> := [first] + Zeros(n - 1);
    if offset + n <= |p.data| {
      var q := AddFragment(p, offset, frag).value;
      assert q.data[offset + hl] == there;
      PayloadAt(q, offset);
      assert HasPayload(q) && offset + n <= |Payload(q)| ==> Payload(q)[offset..offset + n][0] == there;
    }
    assert |frag| == n && !Lands(p, offset, frag);
  }

  //
  // The packet object
  //

  lemma FieldSpliced(p: Packet, at: nat, zeroed: seq<u8>, field: seq<u8>)
    requires HasPayload(p) && p.header.ihl as int * 4 <= at && at + |field| <= |p.data|
    requires zeroed == Splice(Payload(p), at - p.header.ihl as int * 4, field)
    ensures Payload(p.(data := Splice(p.data, at, field))) == zeroed
  {
  }

  lemma SplicedTwice(b: seq<u8>, at: nat, a: seq<u8>, x: seq<u8>, y: seq<u8>)
    requires at + |x| <= |a| && |x| == |y| && b == Splice(a, at, x)
    ensures Splice(b, at, y) == Splice(a, at, y)
  {
  }

  class Ipv4Packet {
    var header: Header
    var data: seq<u8>

    function View(): (r: Packet)
      reads this
    {
      Packet(header, data)
    }

    constructor (p: Packet)
      ensures View() == p
    {
      header := p.header;
      data := p.data;
    }

    /** Panics exactly when `AddFragment` says so; otherwise the new packet is its value. */
    method AddFragmentData(offset: u16, payload: seq<u8>)
      requires AddFragment(View(), offset, payload).Ok?
      modifies this
      ensures Ok(View()) == AddFragment(old(View()), offset, payload)
    {
      var end := |Payload(View())|;
      if offset == end {
        data := data + payload;
        header := header.(length := (header.length + |payload|) % 0x1_0000);
      } else if offset > end {
        data := Resize(data, offset);
        data := data + payload;
        header := header.(length := (offset + |payload|) % 0x1_0000);
      } else {
        data := Splice(data, offset, payload);
      }
    }

    method FinalizePacket()
      requires |data| >= 20
      modifies this
      ensures Ok(View()) == Finalize(old(View()))
    {
      header := header.(flags := 0);
      header := header.(fragOffset := 0);
      data := HeaderAsBytes(header, data);
    }

    method SetSource(ip: u32)
      requires Editable(View())
      modifies this
      ensures View() == Masquerade(old(View()), ip)
      ensures header == old(header).(src := ip)
      ensures header.ihl >= 5 ==> Rewritten(old(View()), data, ip, old(header).dst)
    {
      if header.ihl >= 5 {
        OneAddressIsRewritten(View(), ip);
      }
      hide Rewritten;
      header := header.(src := ip);
      data := HeaderAsBytes(header, data);
      FixTransportChecksum();
    }

    method SetDestination(ip: u32)
      requires Editable(View())
      modifies this
      ensures View() == Unmasquerade(old(View()), ip)
      ensures header == old(header).(dst := ip)
      ensures header.ihl >= 5 ==> Rewritten(old(View()), data, old(header).src, ip)
    {
      if header.ihl >= 5 {
        OneAddressIsRewritten(View(), ip);
      }
      hide Rewritten;
      header := header.(dst := ip);
      data := HeaderAsBytes(header, data);
      FixTransportChecksum();
    }

    method FixTransportChecksum()
      requires Editable(View())
      modifies this
      ensures View() == FixTransport(old(View()))
    {
      var field := ChecksumField(header.protocol);
      if field.Some? {
        var at := header.ihl as int * 4 + field.value;
        var zeroed := Splice(Payload(View()), field.value, [0, 0]);
        FieldSpliced(View(), at, zeroed, [0, 0]);
        data := Splice(data, at, [0, 0]);
        var sum := ComputePhChecksum(header.src, header.dst, header.protocol, Payload(View()));
        SplicedTwice(data, at, old(data), [0, 0], ToBe16(sum));
        data := Splice(data, at, ToBe16(sum));
      }
    }
  }
}
