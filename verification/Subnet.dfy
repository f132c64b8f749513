/**
 IPv4 subnet arithmetic of oathgate-net/src/types/netaddress.rs. Addresses are
 32-bit numbers; the bitwise operators are those of module Bits.
 */
module Subnet {
  import opened Bytes
  import opened Bits

  const MAX_IP: u32 := 0xFFFF_FFFF

  datatype Network = Network(ip: u32, mask: u32) {

    function NetworkAddress(): (r: nat)
    {
      And(ip, mask)
    }

    function Broadcast(): (r: nat)
    {
      Or(ip, MAX_IP - mask)
    }

    predicate Contains(x: u32)
    {
      And(x, mask) == NetworkAddress()
    }

    function MaskBits(): (r: nat)
    {
      CountOnes(mask)
    }

    /** The candidate address of `next`: the following one, wrapping at 2^32. */
    function Following(): (r: u32)
    {
      (ip + 1) % 0x1_0000_0000
    }
  }

  /** A mask made of `bits` ones followed by zeros. */
  predicate IsPrefixMask(mask: u32, bits: nat)
  {
    bits <= 32 && mask == 0x1_0000_0000 - Pow2(32 - bits)
  }

  /** First and last address of the aligned block of `size` addresses around `ip`. */
  function BlockStart(ip: nat, size: nat): (r: nat)
    requires size > 0
  {
    ip - ip % size
  }

  function BlockEnd(ip: nat, size: nat): (r: nat)
    requires size > 0
  {
    ip - ip % size + size - 1
  }

  /** `Ipv4Network::new`: clears the low bits one XOR at a time. */
  method NewNetwork(ip: u32, bits: u8) returns (net: Network)
    requires bits <= 32
    ensures net.ip == ip && IsPrefixMask(net.mask, bits)
  {
    Pow2Of32();
    var subnet: u32 := MAX_IP;
    for idx := 0 to 32 - bits
      invariant Pow2(idx) <= Pow2(32) && subnet == 0x1_0000_0000 - Pow2(idx)
    {
      MaskBitIsSet(idx);
      XorClearsBit(subnet, idx);
      subnet := Xor(subnet, Pow2(idx));
      Pow2Mono(idx + 1, 32);
    }
    net := Network(ip, subnet);
  }

  /** `next`: none when the following address is the network or broadcast address. */
  method Next(net: Network, ghost bits: nat) returns (r: Option<Network>)
    requires IsPrefixMask(net.mask, bits)
    ensures var size := Pow2(32 - bits);
            r == if net.Following() == BlockStart(net.ip, size) || net.Following() == BlockEnd(net.ip, size)
                 then None else Some(Network(net.Following(), net.mask))
  {
    BlockEnds(net, bits);
    var following := net.Following();
    if following == net.NetworkAddress() || following == net.Broadcast() {
      r := None;
    } else {
      MaskBitsOfPrefix(net, bits);
      var nxt := NewNetwork(following, net.MaskBits());
      r := Some(nxt);
    }
  }

  lemma Pow2Of32()
    ensures Pow2(32) == 0x1_0000_0000
  {
    Pow2Add(16, 16);
    assert Pow2(16) == 0x1_0000 by {
      Pow2Add(8, 8);
      assert Pow2(8) == 0x100 by {
        Pow2Add(4, 4);
        assert Pow2(4) == 16 by { assert Pow2(2) == 4; Pow2Add(2, 2); }
      }
    }
  }

  /** Bit `k` of `2^32 - 2^k` is set. */
  lemma MaskBitIsSet(k: nat)
    requires k < 32
    ensures Pow2(k) <= 0x1_0000_0000
    ensures ((0x1_0000_0000 - Pow2(k)) / Pow2(k)) % 2 == 1
  {
    Pow2Of32();
    Pow2Mono(k, 32);
    Pow2Add(32 - k, k);
    OddMultiple(Pow2(k), Pow2(31 - k), 0x1_0000_0000 - Pow2(k));
  }

  lemma OddMultiple(p: nat, h: nat, x: nat)
    requires p > 0 && h > 0 && x == (2 * h) * p - p
    ensures (x / p) % 2 == 1
  {
    assert x == (2 * h - 1) * p;
    QuotientIs(x, p, 2 * h - 1, 0);
  }

  /** Counting the ones of a prefix mask gives the prefix length back. */
  lemma MaskBitsOfPrefix(net: Network, bits: nat)
    requires IsPrefixMask(net.mask, bits)
    ensures net.MaskBits() == bits
  {
    Pow2Of32();
    CountMask(32, 32 - bits);
  }

  /** Network and broadcast addresses are the two ends of the aligned block around the address. */
  lemma BlockEnds(net: Network, bits: nat)
    requires IsPrefixMask(net.mask, bits)
    ensures var size := Pow2(32 - bits);
            && net.NetworkAddress() == BlockStart(net.ip, size)
            && net.Broadcast() == BlockEnd(net.ip, size)
            && net.Broadcast() <= MAX_IP
  {
    Pow2Of32();
    var k := 32 - bits;
    AndMask(net.ip, 32, k);
    OrOnes(net.ip, k);
    var size := Pow2(k);
    Pow2Add(bits, k);
    BlockFits(net.ip, size, Pow2(bits));
  }

  lemma BlockFits(x: nat, size: nat, blocks: nat)
    requires size > 0 && x < blocks * size
    ensures x - x % size + size <= blocks * size
  {
    var q := x / size;
    assert x - x % size == q * size;
    assert blocks * size - q * size == (blocks - q) * size;
    if q < blocks {
      MulAtLeast(blocks - q, size);
    }
  }

  /** An address belongs to the network exactly when it lies between its two ends. */
  lemma ContainsIsInterval(net: Network, bits: nat, x: u32)
    requires IsPrefixMask(net.mask, bits)
    ensures net.Contains(x) <==> net.NetworkAddress() <= x <= net.Broadcast()
  {
    Pow2Of32();
    BlockEnds(net, bits);
    AndMask(x, 32, 32 - bits);
    SameBlock(net.ip, x, Pow2(32 - bits));
  }

  lemma SameBlock(a: nat, x: nat, size: nat)
    requires size > 0
    ensures BlockStart(x, size) == BlockStart(a, size) <==> BlockStart(a, size) <= x <= BlockEnd(a, size)
  {
    var q := a / size;
    assert a - a % size == q * size;
    assert x - x % size == (x / size) * size;
    if q * size <= x < q * size + size {
      QuotientIs(x, size, q, x - q * size);
    }
  }
}
