/**
 vhost-user payloads and the host-to-guest address translation of
 oathgate-vhost/src/types.rs and oathgate-vhost/src/device.rs.
 */
module Vhost {
  import opened Bytes

  //
  // Payloads
  //

  function Le32At(s: seq<u8>, i: nat): (r: u32)
    requires i + 4 <= |s|
  {
    Pow256Values();
    FromLe(s[i..i + 4])
  }

  function Le64At(s: seq<u8>, i: nat): (r: u64)
    requires i + 8 <= |s|
  {
    Pow256Values();
    FromLe(s[i..i + 8])
  }

  lemma Pow256Values()
    ensures Pow256(4) == 0x1_0000_0000 && Pow256(8) == 0x1_0000_0000_0000_0000
  {
    assert Pow256(2) == 0x1_0000;
    assert Pow256(3) == 0x100_0000;
    assert Pow256(5) == 0x100_0000_0000;
    assert Pow256(6) == 0x1_0000_0000_0000;
    assert Pow256(7) == 0x100_0000_0000_0000;
  }

  /** The least significant byte comes first. */
  lemma LowByteFirst(s: seq<u8>, i: nat)
    requires i + 8 <= |s|
    ensures Le32At(s, i) == s[i] + 0x100 * s[i + 1] as int + 0x1_0000 * s[i + 2] as int + 0x100_0000 * s[i + 3] as int
    ensures Le64At(s, i) == Le32At(s, i) + 0x1_0000_0000 * Le32At(s, i + 4) as int
  {
    hide FromLe;
    Pow256Values();
    FourBytes(s[i..i + 4]);
    FourBytes(s[i + 4..i + 8]);
    var t := s[i..i + 8];
    assert t[4..] == s[i + 4..i + 8];
    FourAndMore(t);
    FourBytes(t[..4]);
    assert t[..4] == s[i..i + 4];
  }

  lemma LeFirst(s: seq<u8>)
    requires s != []
    ensures FromLe(s) == s[0] + 0x100 * FromLe(s[1..])
  {
  }

  lemma FourAndMore(s: seq<u8>)
    requires |s| >= 4
    ensures FromLe(s) == FromLe(s[..4]) + 0x1_0000_0000 * FromLe(s[4..])
  {
    hide FromLe;
    FourBytes(s[..4]);
    LeFirst(s);
    LeFirst(s[1..]);
    LeFirst(s[2..]);
    LeFirst(s[3..]);
    assert s[1..][1..] == s[2..] && s[2..][1..] == s[3..] && s[3..][1..] == s[4..];
  }

  lemma FourBytes(s: seq<u8>)
    requires |s| == 4
    ensures FromLe(s) == s[0] + 0x100 * s[1] as int + 0x1_0000 * s[2] as int + 0x100_0000 * s[3] as int
  {
    hide FromLe;
    LeFirst(s);
    LeFirst(s[1..]);
    LeFirst(s[2..]);
    LeFirst(s[3..]);
    assert s[1..][1..] == s[2..] && s[2..][1..] == s[3..] && s[3..][1..] == [];
    NoBytes();
  }

  lemma NoBytes()
    ensures FromLe([]) == 0
  {
  }

  lemma Le32Written(s: seq<u8>, i: nat, x: u32)
    requires i + 4 <= |s| && s[i..i + 4] == ToLe(x, 4)
    ensures Le32At(s, i) == x
  {
    hide Pow256, ToLe, FromLe;
    Pow256Values();
    LeRoundTrip(x, 4);
  }

  lemma Le64Written(s: seq<u8>, i: nat, x: u64)
    requires i + 8 <= |s| && s[i..i + 8] == ToLe(x, 8)
    ensures Le64At(s, i) == x
  {
    hide Pow256, ToLe, FromLe;
    Pow256Values();
    LeRoundTrip(x, 8);
  }

  datatype Region = Region(guest: u64, size: u64, user: u64, offset: u64)

  function EncodeRegion(r: Region): (b: seq<u8>)
    ensures |b| == 32
  {
    ToLe(r.guest, 8) + ToLe(r.size, 8) + ToLe(r.user, 8) + ToLe(r.offset, 8)
  }

  function RegionAt(pkt: seq<u8>, i: nat): (r: Region)
    requires i + 32 <= |pkt|
  {
    Region(Le64At(pkt, i), Le64At(pkt, i + 8), Le64At(pkt, i + 16), Le64At(pkt, i + 24))
  }

  /** The region-list payload: a count, four bytes of padding, the regions. */
  function EncodeRegions(rs: seq<Region>): (b: seq<u8>)
    ensures |b| == 8 + 32 * |rs|
  {
    ToLe(|rs|, 4) + Zeros(4) + RegionBytes(rs)
  }

  function RegionBytes(rs: seq<Region>): (b: seq<u8>)
    ensures |b| == 32 * |rs|
  {
    if rs == [] then [] else RegionBytes(rs[..|rs| - 1]) + EncodeRegion(rs[|rs| - 1])
  }

  function RegionList(pkt: seq<u8>, n: nat): (r: seq<Region>)
    requires |pkt| >= n * 32 + 8
    ensures |r| == n && forall k :: 0 <= k < n ==> r[k] == RegionAt(pkt, k * 32 + 8)
  {
    seq(n, k requires 0 <= k < n && |pkt| >= n * 32 + 8 => RegionAt(pkt, k * 32 + 8))
  }

  /** `Vec<MemoryRegionDescription>::try_from_payload`. */
  function DecodeRegions(pkt: seq<u8>): (r: Outcome<seq<Region>>)
  {
    if |pkt| < 40 || |pkt| < Le32At(pkt, 0) as int * 32 + 8 then Err
    else Ok(RegionList(pkt, Le32At(pkt, 0)))
  }

  method ParseRegions(pkt: seq<u8>) returns (r: Outcome<seq<Region>>)
    ensures r == DecodeRegions(pkt)
  {
    if |pkt| < 40 {
      return Err;
    }
    var count := Le32At(pkt, 0);
    if |pkt| < count as int * 32 + 8 {
      return Err;
    }
    var regions: seq<Region> := [];
    for i := 0 to count
      invariant |regions| == i && forall k :: 0 <= k < i ==> regions[k] == RegionAt(pkt, k * 32 + 8)
    {
      regions := regions + [RegionAt(pkt, i * 32 + 8)];
    }
    assert regions == RegionList(pkt, count);
    r := Ok(regions);
  }

  lemma SubSlice(s: seq<u8>, i: nat, t: seq<u8>, a: nat, b: nat)
    requires i + |t| <= |s| && s[i..i + |t|] == t && a <= b <= |t|
    ensures s[i + a..i + b] == t[a..b]
  {
    forall k | 0 <= k < b - a ensures s[i + a..i + b][k] == t[a..b][k] {
      assert s[i..i + |t|][a + k] == t[a + k];
    }
  }

  lemma RegionRoundTrip(pkt: seq<u8>, i: nat, r: Region)
    requires i + 32 <= |pkt| && pkt[i..i + 32] == EncodeRegion(r)
    ensures RegionAt(pkt, i) == r
  {
    RegionFields(r);
    FieldRoundTrip(pkt, i, EncodeRegion(r), 0, r.guest);
    FieldRoundTrip(pkt, i, EncodeRegion(r), 8, r.size);
    FieldRoundTrip(pkt, i, EncodeRegion(r), 16, r.user);
    FieldRoundTrip(pkt, i, EncodeRegion(r), 24, r.offset);
  }

  lemma FieldRoundTrip(pkt: seq<u8>, i: nat, b: seq<u8>, k: nat, x: u64)
    requires i + |b| <= |pkt| && pkt[i..i + |b|] == b
    requires k + 8 <= |b| && b[k..k + 8] == ToLe(x, 8)
    ensures Le64At(pkt, i + k) == x
  {
    SubSlice(pkt, i, b, k, k + 8);
    Le64Written(pkt, i + k, x);
  }

  lemma RegionFields(r: Region)
    ensures var b := EncodeRegion(r);
            && b[0..8] == ToLe(r.guest, 8) && b[8..16] == ToLe(r.size, 8)
            && b[16..24] == ToLe(r.user, 8) && b[24..32] == ToLe(r.offset, 8)
  {
  }

  lemma {:induction false} RegionBytesAt(rs: seq<Region>, k: nat)
    requires k < |rs|
    ensures RegionBytes(rs)[k * 32..k * 32 + 32] == EncodeRegion(rs[k])
  {
    var n := |rs| - 1;
    if k < n {
      RegionBytesAt(rs[..n], k);
      assert RegionBytes(rs)[k * 32..k * 32 + 32] == RegionBytes(rs[..n])[k * 32..k * 32 + 32];
    }
  }

  /** A region list decodes from its encoding exactly when it is not empty. */
  lemma RegionsRoundTripIff(rs: seq<Region>)
    requires |rs| < 0x1_0000_0000
    ensures DecodeRegions(EncodeRegions(rs)) == Ok(rs) <==> rs != []
  {
    var pkt := EncodeRegions(rs);
    assert pkt[0..4] == ToLe(|rs|, 4);
    Le32Written(pkt, 0, |rs|);
    forall k | 0 <= k < |rs| ensures RegionAt(pkt, k * 32 + 8) == rs[k] {
      RegionBytesAt(rs, k);
      assert pkt[k * 32 + 8..k * 32 + 40] == RegionBytes(rs)[k * 32..k * 32 + 32];
      RegionRoundTrip(pkt, k * 32 + 8, rs[k]);
    }
    if rs != [] {
      assert DecodeRegions(pkt).value == rs;
    }
  }

  /** Which payloads decode, and where the fields of each region are. */
  lemma RegionLayout(pkt: seq<u8>)
    ensures DecodeRegions(pkt).Ok? <==> |pkt| >= 40 && |pkt| >= 8 + 32 * Le32At(pkt, 0) as int
    ensures DecodeRegions(pkt).Ok? ==>
              var rs := DecodeRegions(pkt).value;
              && |rs| == Le32At(pkt, 0)
              && forall k :: 0 <= k < |rs| ==>
                   && rs[k].guest == Le64At(pkt, 8 + 32 * k) && rs[k].size == Le64At(pkt, 16 + 32 * k)
                   && rs[k].user == Le64At(pkt, 24 + 32 * k) && rs[k].offset == Le64At(pkt, 32 + 32 * k)
  {
    hide Le64At, Le32At;
  }

  datatype VRingDescriptor = VRingDescriptor(index: u32, avail: u32)

  function DecodeDescriptor(pkt: seq<u8>): (r: Outcome<VRingDescriptor>)
  {
    if |pkt| < 8 then Err else Ok(VRingDescriptor(Le32At(pkt, 0), Le32At(pkt, 4)))
  }

  /** `VRingDescriptor::as_vec`: the index, and four zero bytes in place of `avail`. */
  function EncodeDescriptor(d: VRingDescriptor): (r: seq<u8>)
    ensures |r| == 8
  {
    ToLe(d.index, 4) + Zeros(4)
  }

  /** A ring base reply says the next index exactly when that index is 0. */
  lemma DescriptorRoundTripIff(d: VRingDescriptor)
    ensures DecodeDescriptor(EncodeDescriptor(d)) == Ok(d) <==> d.avail == 0
  {
    var pkt := EncodeDescriptor(d);
    assert pkt[0..4] == ToLe(d.index, 4);
    Le32Written(pkt, 0, d.index);
    ZerosAreLe(4);
    assert pkt[4..8] == Zeros(4);
    Le32Written(pkt, 4, 0);
  }

  lemma {:induction false} ZerosAreLe(n: nat)
    ensures ToLe(0, n) == Zeros(n)
  {
    if n > 0 {
      ZerosAreLe(n - 1);
      assert Zeros(n) == [0] + Zeros(n - 1);
    }
  }

  //
  // Address translation
  //

  datatype Mapping = Mapping(hostStart: u64, hostEnd: u64, guest: u64, size: u64)

  /** `GuestMapping::new`; the end wraps at 64 bits. */
  function MappingOf(host: u64, guest: u64, size: u64): (r: Mapping)
  {
    Mapping(host, (host + size) % 0x1_0000_0000_0000_0000, guest, size)
  }

  /** The code's range is closed: it includes the address after the region. */
  predicate Covers(m: Mapping, vmm: u64)
  {
    m.hostStart <= vmm <= m.hostEnd
  }

  /** The region itself. */
  predicate Within(m: Mapping, vmm: u64)
  {
    m.hostStart <= vmm < m.hostEnd
  }

  function GuestOf(m: Mapping, vmm: u64): (r: u64)
  {
    (vmm - m.hostStart + m.guest) % 0x1_0000_0000_0000_0000
  }

  /** `compute_guest_address`: the first mapping that covers the address. */
  function Translate(ms: seq<Mapping>, vmm: u64): (r: Option<u64>)
  {
    if ms == [] then None
    else if Covers(ms[0], vmm) then Some(GuestOf(ms[0], vmm))
    else Translate(ms[1..], vmm)
  }

  /** Neither end of the region wraps. */
  predicate Proper(m: Mapping)
  {
    m.size > 0 && m.hostEnd == m.hostStart + m.size && m.guest + m.size < 0x1_0000_0000_0000_0000
  }

  predicate AllProper(ms: seq<Mapping>)
  {
    forall i :: 0 <= i < |ms| ==> Proper(ms[i])
  }

  ghost predicate ClosedHostsDisjoint(ms: seq<Mapping>)
  {
    forall i, j :: 0 <= i < j < |ms| ==> ms[i].hostEnd < ms[j].hostStart || ms[j].hostEnd < ms[i].hostStart
  }

  ghost predicate ClosedGuestsDisjoint(ms: seq<Mapping>)
  {
    forall i, j :: 0 <= i < j < |ms| ==>
      ms[i].guest + ms[i].size < ms[j].guest || ms[j].guest + ms[j].size < ms[i].guest
  }

  ghost predicate HostsDisjoint(ms: seq<Mapping>)
  {
    forall i, j :: 0 <= i < j < |ms| ==> ms[i].hostEnd <= ms[j].hostStart || ms[j].hostEnd <= ms[i].hostStart
  }

  /** The translation comes from the first covering mapping. */
  lemma {:induction false} TranslateIsFirst(ms: seq<Mapping>, vmm: u64, i: nat)
    requires i < |ms| && Covers(ms[i], vmm) && forall k :: 0 <= k < i ==> !Covers(ms[k], vmm)
    ensures Translate(ms, vmm) == Some(GuestOf(ms[i], vmm))
  {
    if i > 0 {
      TranslateIsFirst(ms[1..], vmm, i - 1);
    }
  }

  lemma {:induction false} TranslateSome(ms: seq<Mapping>, vmm: u64) returns (i: nat)
    ensures Translate(ms, vmm) == None ==> forall k :: 0 <= k < |ms| ==> !Covers(ms[k], vmm)
    ensures Translate(ms, vmm).Some? ==>
              && i < |ms| && Covers(ms[i], vmm) && Translate(ms, vmm) == Some(GuestOf(ms[i], vmm))
              && forall k :: 0 <= k < i ==> !Covers(ms[k], vmm)
  {
    i := 0;
    if ms != [] && !Covers(ms[0], vmm) {
      i := TranslateSome(ms[1..], vmm);
      i := i + 1;
      assert forall k :: 1 <= k < |ms| ==> ms[k] == ms[1..][k - 1];
    }
  }

  /** With disjoint closed ranges, every address of a region translates inside that region. */
  lemma TranslateMeetsRegion(ms: seq<Mapping>, vmm: u64, j: nat)
    requires ClosedHostsDisjoint(ms) && j < |ms| && Covers(ms[j], vmm)
    ensures Translate(ms, vmm) == Some(GuestOf(ms[j], vmm))
  {
    TranslateIsFirst(ms, vmm, j);
  }

  /** The order of the regions does not matter. */
  lemma OrderDoesNotMatter(ms: seq<Mapping>, ns: seq<Mapping>, vmm: u64)
    requires ClosedHostsDisjoint(ms) && multiset(ms) == multiset(ns)
    ensures Translate(ns, vmm) == Translate(ms, vmm)
  {
    var i := TranslateSome(ms, vmm);
    var j := TranslateSome(ns, vmm);
    if Translate(ns, vmm).Some? {
      assert ns[j] in multiset(ms);
      var k :| 0 <= k < |ms| && ms[k] == ns[j];
      TranslateMeetsRegion(ms, vmm, k);
    } else {
      assert forall k :: 0 <= k < |ms| ==> ms[k] in multiset(ns);
    }
  }

  /** With disjoint closed guest ranges too, no two addresses translate to the same one. */
  lemma TranslateIsInjective(ms: seq<Mapping>, v: u64, w: u64)
    requires AllProper(ms) && ClosedHostsDisjoint(ms) && ClosedGuestsDisjoint(ms)
    requires Translate(ms, v).Some? && Translate(ms, w) == Translate(ms, v)
    ensures v == w
  {
    var i := TranslateSome(ms, v);
    var j := TranslateSome(ms, w);
    assert Proper(ms[i]) && Proper(ms[j]);
    SameGuest(ms[i], v, ms[j], w);
  }

  /** Two covered addresses with one translation: the closed guest ranges meet. */
  lemma SameGuest(m: Mapping, v: u64, n: Mapping, w: u64)
    requires Proper(m) && Proper(n) && Covers(m, v) && Covers(n, w) && GuestOf(m, v) == GuestOf(n, w)
    ensures m.guest <= n.guest + n.size && n.guest <= m.guest + m.size
    ensures m == n ==> v == w
  {
  }

  /** Of disjoint regions, only one that ends where another begins also covers an address of it. */
  lemma CoveredTwice(m: Mapping, n: Mapping, vmm: u64)
    requires Proper(m) && Proper(n) && (m.hostEnd <= n.hostStart || n.hostEnd <= m.hostStart)
    requires Within(n, vmm)
    ensures Covers(m, vmm) <==> m.hostEnd == vmm
  {
  }

  /** The translation of the regions themselves, without the address after each. */
  function HalfOpen(ms: seq<Mapping>, vmm: u64): (r: Option<u64>)
  {
    if ms == [] then None
    else if Within(ms[0], vmm) then Some(GuestOf(ms[0], vmm))
    else HalfOpen(ms[1..], vmm)
  }

  lemma {:induction false} HalfOpenSome(ms: seq<Mapping>, vmm: u64) returns (j: nat)
    ensures HalfOpen(ms, vmm) == None ==> forall k :: 0 <= k < |ms| ==> !Within(ms[k], vmm)
    ensures HalfOpen(ms, vmm).Some? ==> j < |ms| && Within(ms[j], vmm) && HalfOpen(ms, vmm) == Some(GuestOf(ms[j], vmm))
  {
    j := 0;
    if ms != [] && !Within(ms[0], vmm) {
      j := HalfOpenSome(ms[1..], vmm);
      j := j + 1;
      assert forall k :: 1 <= k < |ms| ==> ms[k] == ms[1..][k - 1];
    }
  }

  /** Disjoint regions with a common address, or a common end, are one. */
  lemma OneRegionThere(ms: seq<Mapping>, i: nat, k: nat, vmm: u64)
    requires AllProper(ms) && HostsDisjoint(ms) && i < |ms| && k < |ms|
    requires (Within(ms[i], vmm) && Within(ms[k], vmm)) || (ms[i].hostEnd == vmm == ms[k].hostEnd)
    ensures i == k
  {
    assert Proper(ms[i]) && Proper(ms[k]);
  }

  /** The end of region `i` is claimed by the region that begins there, or translates to the same place in it. */
  ghost predicate EndIsHarmless(ms: seq<Mapping>, i: nat, vmm: u64)
    requires i < |ms|
  {
    exists j :: 0 <= j < |ms| && Within(ms[j], vmm) && (j < i || GuestOf(ms[j], vmm) == GuestOf(ms[i], vmm))
  }

  /**
   For disjoint regions and every address: the code translates as the regions say exactly when
   the address is no region's end, or is in a region that is listed earlier than the one that
   ends there or continues it in the guest too.
   */
  lemma ClosedEndsMatterIff(ms: seq<Mapping>, vmm: u64)
    requires AllProper(ms) && HostsDisjoint(ms)
    ensures Translate(ms, vmm) == HalfOpen(ms, vmm) <==>
            forall i :: 0 <= i < |ms| && ms[i].hostEnd == vmm ==> EndIsHarmless(ms, i, vmm)
  {
    var f := TranslateSome(ms, vmm);
    var j := HalfOpenSome(ms, vmm);
    if HalfOpen(ms, vmm).Some? {
      RegionClaims(ms, vmm, f, j);
    } else {
      forall i | 0 <= i < |ms| ensures Covers(ms[i], vmm) <==> ms[i].hostEnd == vmm {
        assert Proper(ms[i]) && !Within(ms[i], vmm);
      }
      forall i | 0 <= i < |ms| ensures !EndIsHarmless(ms, i, vmm) {
      }
      if Translate(ms, vmm).Some? {
        assert ms[f].hostEnd == vmm;
      }
    }
  }

  /** When the address is in region `j` and region `f` is the first to cover it. */
  lemma RegionClaims(ms: seq<Mapping>, vmm: u64, f: nat, j: nat)
    requires AllProper(ms) && HostsDisjoint(ms) && f < |ms| && j < |ms| && Covers(ms[f], vmm) && Within(ms[j], vmm)
    requires forall k :: 0 <= k < f ==> !Covers(ms[k], vmm)
    ensures GuestOf(ms[f], vmm) == GuestOf(ms[j], vmm) <==>
            forall i :: 0 <= i < |ms| && ms[i].hostEnd == vmm ==> EndIsHarmless(ms, i, vmm)
  {
    assert f <= j;
    forall k | 0 <= k < |ms| && Within(ms[k], vmm) ensures k == j {
      OneRegionThere(ms, j, k, vmm);
    }
    if f < j {
      assert Proper(ms[f]) && Proper(ms[j]);
      CoveredTwice(ms[f], ms[j], vmm);
      forall i | 0 <= i < |ms| && ms[i].hostEnd == vmm ensures i == f {
        OneRegionThere(ms, i, f, vmm);
      }
    } else {
      forall i | 0 <= i < |ms| && ms[i].hostEnd == vmm ensures EndIsHarmless(ms, i, vmm) {
        assert Covers(ms[i], vmm) by { assert Proper(ms[i]); }
        assert i != j && j < i;
      }
    }
  }

  /** Appending a table never changes an address the old table already translates. */
  lemma {:induction false} OlderTableWins(older: seq<Mapping>, newer: seq<Mapping>, vmm: u64)
    ensures Translate(older + newer, vmm)
            == if Translate(older, vmm).Some? then Translate(older, vmm) else Translate(newer, vmm)
  {
    if older == [] {
      assert older + newer == newer;
    } else {
      OlderTableWins(older[1..], newer, vmm);
      assert (older + newer)[1..] == older[1..] + newer;
    }
  }
}
