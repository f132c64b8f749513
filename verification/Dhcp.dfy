/**
 The DHCP address allocator of oathgate-bridge/src/net/dhcp.rs: the pool built
 by `DhcpServer::new` and the leases handed out by `lease_ip`.
 */
module Dhcp {
  import opened Bytes
  import opened Bits
  import opened Frame
  import opened Subnet

  //
  // The pool
  //

  function Interval(lo: u32, hi: u32): (r: seq<u32>)
    requires lo <= hi
    ensures |r| == hi - lo + 1
    ensures forall i :: 0 <= i < |r| ==> r[i] == lo + i
  {
    seq(hi - lo + 1, i requires 0 <= i < hi - lo + 1 => lo + i)
  }

  function Min(a: int, b: int): (r: int) { if a < b then a else b }

  function Max(a: int, b: int): (r: int) { if a < b then b else a }

  /** The address the pool loop goes on with after `ip`, or none when it stops. */
  function Continue(ip: u32, size: nat, end: u32): (r: Option<u32>)
    requires size > 0
  {
    var f := (ip + 1) % 0x1_0000_0000;
    if f == BlockStart(ip, size) || f == BlockEnd(ip, size) || f > end then None else Some(f)
  }

  /** A bound on the iterations left at address `ip`. */
  ghost function Rank(ip: u32, size: nat, end: u32): (r: nat)
    requires size > 0
  {
    if size == 1 then (if ip == MAX_IP then end + 1 else Max(0, end - ip))
    else if ip == BlockEnd(ip, size) then size + 1
    else BlockEnd(ip, size) - ip
  }

  lemma RankDecreases(ip: u32, size: nat, end: u32)
    requires size > 0 && BlockEnd(ip, size) <= MAX_IP
    requires size > 1 || end < MAX_IP
    requires Continue(ip, size, end).Some?
    ensures Rank(Continue(ip, size, end).value, size, end) < Rank(ip, size, end)
  {
    if size > 1 {
      if ip == BlockEnd(ip, size) {
        NextBlockIsAligned(ip, size);
      } else {
        SameBlock(ip, ip + 1, size);
      }
    }
  }

  /** The address after the last one of a block, modulo 2^32, starts a block. */
  lemma NextBlockIsAligned(ip: u32, size: nat)
    requires size > 0 && ip == BlockEnd(ip, size)
    ensures ((ip + 1) % 0x1_0000_0000) % size == 0
  {
    if ip < MAX_IP {
      assert ip + 1 == (ip / size + 1) * size;
      QuotientIs(ip + 1, size, ip / size + 1, 0);
    }
  }

  /** One turn of the pool loop: `next`, and the comparison with the end of the range. */
  method PoolStep(cur: Network, ghost bits: nat, end: u32) returns (nxt: Option<Network>)
    requires IsPrefixMask(cur.mask, bits) && (bits < 32 || end < MAX_IP)
    ensures var size := Pow2(32 - bits);
            match Continue(cur.ip, size, end)
            case None => nxt == None
            case Some(f) => nxt == Some(Network(f, cur.mask)) && Rank(f, size, end) < Rank(cur.ip, size, end)
  {
    nxt := Next(cur, bits);
    if nxt.Some? && nxt.value.ip > end {
      nxt := None;
    }
    ghost var size := Pow2(32 - bits);
    BlockEnds(cur, bits);
    if Continue(cur.ip, size, end).Some? {
      RankDecreases(cur.ip, size, end);
    }
  }

  /** Below the last address of its block the loop moves up by one inside the block. */
  lemma ContinueInBlock(ip: u32, size: nat, end: u32)
    requires size > 0 && ip < BlockEnd(ip, size) <= MAX_IP
    ensures var last := BlockEnd(ip, size);
            var r := Continue(ip, size, end);
            if ip + 1 == last || ip + 1 > end then r == None
            else r == Some(ip + 1) && BlockEnd(ip + 1, size) == last
  {
    SameBlock(ip, ip + 1, size);
  }

  /** From an address below the last one of its block: up to `end`, or to the address before the last. */
  function Rest(start: u32, size: nat, end: u32): (r: seq<u32>)
    requires size > 0 && start < BlockEnd(start, size) <= MAX_IP
  {
    Interval(start, Max(start, Min(end, BlockEnd(start, size) - 1)))
  }

  /**
   What the loop yields. From the last address of a block it goes on into the next block if
   that begins at or before `end`; the address after the very last one is 0.
   */
  function Pool(start: u32, size: nat, end: u32): (r: seq<u32>)
    requires size > 0 && 0x1_0000_0000 % size == 0
  {
    var f := (start + 1) % 0x1_0000_0000;
    if size == 1 then
      if start == MAX_IP then [start] + Interval(0, end) else Interval(start, Max(start, end))
    else if start < BlockEnd(start, size) then (BlockFits32(start, size); Rest(start, size, end))
    else if f > end || size == 0x1_0000_0000 then [start]
    else (NextBlockIsAligned(start, size); BlockFits32(f, size); [start] + Rest(f, size, end))
  }

  /** A block of a prefix network ends within the address space. */
  lemma BlockFits32(ip: u32, size: nat)
    requires size > 0 && 0x1_0000_0000 % size == 0
    ensures BlockEnd(ip, size) <= MAX_IP
  {
    var blocks := 0x1_0000_0000 / size;
    assert blocks * size == 0x1_0000_0000;
    BlockFits(ip, size, blocks);
  }

  /** What the loop adds from `ip` on, turn by turn. */
  function PoolFrom(ip: u32, size: nat, end: u32): (r: seq<u32>)
    requires size > 0 && 0x1_0000_0000 % size == 0 && (size > 1 || end < MAX_IP)
    decreases Rank(ip, size, end)
  {
    match Continue(ip, size, end)
    case None => [ip]
    case Some(f) =>
      BlockFits32(ip, size);
      RankDecreases(ip, size, end);
      [ip] + PoolFrom(f, size, end)
  }

  lemma PoolNext(ip: u32, size: nat, end: u32)
    requires size > 0 && 0x1_0000_0000 % size == 0 && (size > 1 || end < MAX_IP)
    ensures PoolFrom(ip, size, end)
            == match Continue(ip, size, end) case None => [ip] case Some(f) => [ip] + PoolFrom(f, size, end)
  {
  }

  /** Below the last address of a block, the rest of the loop is an interval. */
  lemma {:induction false} PoolInBlock(ip: u32, size: nat, end: u32)
    requires size > 1 && 0x1_0000_0000 % size == 0 && ip < BlockEnd(ip, size) <= MAX_IP
    ensures PoolFrom(ip, size, end) == Rest(ip, size, end)
    decreases BlockEnd(ip, size) - ip
  {
    ContinueInBlock(ip, size, end);
    if Continue(ip, size, end).Some? {
      PoolInBlock(ip + 1, size, end);
    }
  }

  /** A network of one address: the loop counts up to `end`. */
  lemma {:induction false} PoolOfOnes(ip: u32, end: u32)
    requires end < MAX_IP && ip < MAX_IP
    ensures PoolFrom(ip, 1, end) == Interval(ip, Max(ip, end))
    decreases Max(0, end - ip)
  {
    hide PoolFrom, Interval;
    PoolNext(ip, 1, end);
    if ip < end {
      PoolOfOnes(ip + 1, end);
      assert Interval(ip, end) == [ip] + Interval(ip + 1, end);
    } else {
      assert Interval(ip, ip) == [ip];
    }
  }

  /** The address after the last one of all is 0. */
  lemma OnesFromTheTop(end: u32)
    requires end < MAX_IP
    ensures PoolFrom(MAX_IP, 1, end) == [MAX_IP] + Interval(0, end)
  {
    hide PoolFrom, Interval;
    PoolNext(MAX_IP, 1, end);
    PoolOfOnes(0, end);
  }

  lemma PoolFromLast(start: u32, size: nat, end: u32)
    requires size > 1 && 0x1_0000_0000 % size == 0 && start == BlockEnd(start, size)
    ensures PoolFrom(start, size, end) == Pool(start, size, end)
  {
    hide PoolFrom, Rest;
    var f := (start + 1) % 0x1_0000_0000;
    PoolNext(start, size, end);
    LastOfBlock(start, size);
    if Continue(start, size, end).Some? {
      NextBlockIsAligned(start, size);
      BlockFits32(f, size);
      PoolInBlock(f, size, end);
    }
  }

  lemma PoolContents(start: u32, size: nat, end: u32)
    requires size > 0 && 0x1_0000_0000 % size == 0 && (size > 1 || end < MAX_IP)
    ensures PoolFrom(start, size, end) == Pool(start, size, end)
  {
    hide PoolFrom, Interval, Rest;
    if size == 1 {
      if start == MAX_IP {
        OnesFromTheTop(end);
      } else {
        PoolOfOnes(start, end);
      }
    } else {
      BlockFits32(start, size);
      if start < BlockEnd(start, size) {
        PoolInBlock(start, size, end);
      } else {
        PoolFromLast(start, size, end);
      }
    }
  }

  /** After the last address of a block comes the first of another, unless there is only one block. */
  lemma LastOfBlock(ip: u32, size: nat)
    requires size > 1 && 0x1_0000_0000 % size == 0 && ip == BlockEnd(ip, size)
    ensures var f := (ip + 1) % 0x1_0000_0000;
            f != BlockEnd(ip, size) && (f == BlockStart(ip, size) <==> size == 0x1_0000_0000)
  {
    var q := ip / size;
    assert ip + 1 == (q + 1) * size;
    if ip == MAX_IP {
      assert BlockStart(ip, size) == q * size;
      if q > 0 {
        MulAtLeast(q, size);
      }
    }
  }

  /**
   The loop of `DhcpServer::new`. It ends for every configuration but a /32 network
   whose last address is 255.255.255.255 (see `PoolLoopNeverEnds`).
   */
  method BuildPool(network: Network, ghost bits: nat, start: u32, end: u32) returns (available: seq<u32>)
    requires IsPrefixMask(network.mask, bits) && (bits < 32 || end < MAX_IP)
    ensures 0x1_0000_0000 % Pow2(32 - bits) == 0 && available == Pool(start, Pow2(32 - bits), end)
    ensures var last := BlockEnd(start, Pow2(32 - bits));
            start < last ==> available == Interval(start, Max(start, Min(end, last - 1)))
  {
    hide PoolFrom, Pool, Interval, Rank, Continue, Pow2, CountOnes;
    ghost var size := Pow2(32 - bits);
    SizeDivides(bits);
    MaskBitsOfPrefix(network, bits);
    var cur := NewNetwork(start, network.MaskBits());
    available := [];
    while true
      invariant cur.mask == network.mask
      invariant available + PoolFrom(cur.ip, size, end) == PoolFrom(start, size, end)
      decreases Rank(cur.ip, size, end)
    {
      PoolNext(cur.ip, size, end);
      available := available + [cur.ip];
      var nxt := PoolStep(cur, bits, end);
      if nxt.None? {
        break;
      }
      cur := nxt.value;
    }
    PoolContents(start, size, end);
    PoolBelowLast(start, size, end);
  }

  lemma PoolBelowLast(start: u32, size: nat, end: u32)
    requires size > 0 && 0x1_0000_0000 % size == 0
    ensures var last := BlockEnd(start, size);
            start < last ==> last <= MAX_IP && Pool(start, size, end) == Interval(start, Max(start, Min(end, last - 1)))
  {
    hide Interval;
    BlockFits32(start, size);
  }

  lemma SizeDivides(bits: nat)
    requires bits <= 32
    ensures 0x1_0000_0000 % Pow2(32 - bits) == 0 && (Pow2(32 - bits) == 1 <==> bits == 32)
  {
    Pow2Of32();
    Pow2Add(bits, 32 - bits);
    QuotientIs(0x1_0000_0000, Pow2(32 - bits), Pow2(bits), 0);
  }

  /** The address reached after `n` iterations, if the loop is still running. */
  function After(n: nat, ip: u32, size: nat, end: u32): (r: Option<u32>)
    requires size > 0
  {
    if n == 0 then Some(ip)
    else
      match After(n - 1, ip, size, end)
      case None => None
      case Some(x) => Continue(x, size, end)
  }

  /** With one-address blocks and no larger address than `end`, the loop runs for ever. */
  lemma {:induction false} PoolLoopNeverEnds(n: nat, ip: u32)
    ensures After(n, ip, 1, MAX_IP).Some?
  {
    if n > 0 {
      PoolLoopNeverEnds(n - 1, ip);
    }
  }

  //
  // Leases
  //

  datatype Leases = Leases(free: seq<u32>, leased: map<u32, Mac>)

  datatype Kind = Discover | Request | Other

  datatype Msg = Msg(kind: Kind, mac: Mac, requested: Option<u32>)

  /** `Empty` is a reply of no bytes, which goes out all the same, as an empty UDP datagram. */
  datatype Reply = Offer(ip: u32) | Ack(ip: u32) | Exhausted | Empty

  function Without(s: seq<u32>, x: u32): (r: seq<u32>)
    ensures forall y :: y in r <==> y in s && y != x
    ensures NoDuplicates(s) ==> NoDuplicates(r)
  {
    if s == [] then []
    else
      var rest := Without(s[1..], x);
      assert NoDuplicates(s) ==> NoDuplicates(s[1..]) && s[0] !in s[1..];
      if s[0] == x then rest else [s[0]] + rest
  }

  ghost predicate NoDuplicates(s: seq<u32>)
  {
    forall i, j :: 0 <= i < j < |s| ==> s[i] != s[j]
  }

  /** May the client have the address it names? */
  predicate Grantable(s: Leases, mac: Mac, requested: Option<u32>)
  {
    requested.Some? && (requested.value in s.leased ==> s.leased[requested.value] == mac)
  }

  function Lease(s: Leases, mac: Mac, requested: Option<u32>): (r: (Leases, Option<u32>))
  {
    if Grantable(s, mac, requested) then
      var ip := requested.value;
      (Leases(Without(s.free, ip), s.leased[ip := mac]), Some(ip))
    else if s.free == [] then (s, None)
    else (Leases(s.free[1..], s.leased[s.free[0] := mac]), Some(s.free[0]))
  }

  function Handle(s: Leases, msg: Msg): (r: (Leases, Reply))
  {
    if msg.kind == Other then (s, Empty)
    else
      var (s', ip) := Lease(s, msg.mac, msg.requested);
      (s', if ip.None? then Exhausted else if msg.kind == Discover then Offer(ip.value) else Ack(ip.value))
  }

  /** The server state after the first `n` messages. */
  function State(s: Leases, msgs: seq<Msg>, n: nat): (r: Leases)
    requires n <= |msgs|
  {
    if n == 0 then s else Handle(State(s, msgs, n - 1), msgs[n - 1]).0
  }

  function ReplyTo(s: Leases, msgs: seq<Msg>, n: nat): (r: Reply)
    requires n < |msgs|
  {
    Handle(State(s, msgs, n), msgs[n]).1
  }

  class DhcpServer {
    const network: Network
    var available: seq<u32>
    var leased: map<u32, Mac>

    function View(): (r: Leases)
      reads this
    {
      Leases(available, leased)
    }

    constructor (network: Network, ghost bits: nat, start: u32, end: u32)
      requires IsPrefixMask(network.mask, bits) && (bits < 32 || end < MAX_IP)
      ensures this.network == network && leased == map[]
      ensures 0x1_0000_0000 % Pow2(32 - bits) == 0 && available == Pool(start, Pow2(32 - bits), end)
    {
      var pool := BuildPool(network, bits, start, end);
      this.network := network;
      available := pool;
      leased := map[];
    }

    method LeaseIp(mac: Mac, requested: Option<u32>) returns (ip: Option<u32>)
      modifies this
      ensures (View(), ip) == Lease(old(View()), mac, requested)
      ensures ip.None? <==>
                old(available) == []
                && (requested.None? || (requested.value in old(leased) && old(leased)[requested.value] != mac))
      ensures ip.Some? ==> ip.value in leased && leased[ip.value] == mac
    {
      ip := None;
      if requested.Some? {
        var ria := requested.value;
        if ria !in leased {
          available := Without(available, ria);
          ip := Some(ria);
        } else if leased[ria] == mac {
          available := Without(available, ria);
          ip := Some(ria);
        } else if available != [] {
          ip := Some(available[0]);
          available := available[1..];
        }
      } else if available != [] {
        ip := Some(available[0]);
        available := available[1..];
      }
      if ip.Some? {
        leased := leased[ip.value := mac];
      }
    }

    method HandleMessage(msg: Msg) returns (reply: Reply)
      modifies this
      ensures (View(), reply) == Handle(old(View()), msg)
    {
      reply := Empty;
      if msg.kind != Other {
        var ip := LeaseIp(msg.mac, msg.requested);
        if ip.None? {
          reply := Exhausted;
        } else {
          reply := if msg.kind == Discover then Offer(ip.value) else Ack(ip.value);
        }
      }
    }
  }

  //
  // Every reachable state
  //

  /** The free queue has no duplicates and no leased address. */
  ghost predicate Valid(s: Leases)
  {
    NoDuplicates(s.free) && forall ip :: ip in s.free ==> ip !in s.leased
  }

  /** Whatever the configuration, the pool of a new server holds no address twice. */
  lemma FreshServerIsValid(start: u32, size: nat, end: u32)
    requires size > 0 && 0x1_0000_0000 % size == 0 && (size > 1 || end < MAX_IP)
    ensures Valid(Leases(Pool(start, size, end), map[]))
  {
    var f := (start + 1) % 0x1_0000_0000;
    BlockFits32(start, size);
    BlockFits32(f, size);
    if size > 1 && start == BlockEnd(start, size) {
      LastOfBlock(start, size);
    }
  }

  lemma HandleKeepsLeases(s: Leases, msg: Msg)
    requires Valid(s)
    ensures Valid(Handle(s, msg).0)
    ensures forall ip :: ip in s.leased ==> Get(Handle(s, msg).0.leased, ip) == Some(s.leased[ip])
  {
  }

  /**
   A Discover is answered with an offer and a Request with an acknowledgement: of the address asked for
   unless that is leased to another MAC, else of the first free one, which is then leased to the client;
   if there is none, neither is answered, and nothing changes.
   */
  lemma RepliesAre(s: Leases, msg: Msg)
    ensures var (s', reply) := Handle(s, msg);
            var taken := msg.requested.Some? && msg.requested.value in s.leased
                         && s.leased[msg.requested.value] != msg.mac;
            if msg.kind == Other then s' == s && reply == Empty
            else if (msg.requested.None? || taken) && s.free == [] then s' == s && reply == Exhausted
            else
              var ip := if msg.requested.None? || taken then s.free[0] else msg.requested.value;
              && reply == (if msg.kind == Discover then Offer(ip) else Ack(ip))
              && s'.leased == s.leased[ip := msg.mac]
              && (Valid(s) ==> forall x :: x in s'.free <==> x in s.free && x != ip)
  {
  }

  /** Clients that ask for no address in particular are offered the free ones in their order, until there is none. */
  lemma {:induction false} OffersInOrder(s: Leases, msgs: seq<Msg>, n: nat)
    requires n <= |msgs| && forall i :: 0 <= i < |msgs| ==> msgs[i].kind == Discover && msgs[i].requested == None
    ensures State(s, msgs, n).free == s.free[Min(n, |s.free|)..]
    ensures n < |msgs| && n < |s.free| ==> ReplyTo(s, msgs, n) == Offer(s.free[n])
    ensures n < |msgs| && n >= |s.free| ==> ReplyTo(s, msgs, n) == Exhausted
  {
    if n > 0 {
      OffersInOrder(s, msgs, n - 1);
    }
  }

  /** Over any message sequence leases are only added: none is dropped or moved to another MAC. */
  lemma {:induction false} LeasesNeverMove(s: Leases, msgs: seq<Msg>, m: nat, n: nat)
    requires Valid(s) && m <= n <= |msgs|
    ensures Valid(State(s, msgs, m)) && Valid(State(s, msgs, n))
    ensures forall ip :: ip in State(s, msgs, m).leased ==>
              Get(State(s, msgs, n).leased, ip) == Some(State(s, msgs, m).leased[ip])
  {
    if n > 0 {
      LeasesNeverMove(s, msgs, if m < n then m else n - 1, n - 1);
      HandleKeepsLeases(State(s, msgs, n - 1), msgs[n - 1]);
    }
  }

  /** An address sent to a client is leased to that client's MAC from then on. */
  lemma ReplyIsLeased(s: Leases, msgs: seq<Msg>, i: nat, n: nat)
    requires Valid(s) && i < n <= |msgs|
    requires ReplyTo(s, msgs, i).Offer? || ReplyTo(s, msgs, i).Ack?
    ensures Get(State(s, msgs, n).leased, ReplyTo(s, msgs, i).ip) == Some(msgs[i].mac)
  {
    assert State(s, msgs, i + 1) == Handle(State(s, msgs, i), msgs[i]).0;
    LeasesNeverMove(s, msgs, i + 1, n);
  }

  /** No address is ever sent to two different MACs. */
  lemma OneHolderPerAddress(s: Leases, msgs: seq<Msg>, i: nat, j: nat)
    requires Valid(s) && i < |msgs| && j < |msgs|
    requires ReplyTo(s, msgs, i).Offer? || ReplyTo(s, msgs, i).Ack?
    requires ReplyTo(s, msgs, j).Offer? || ReplyTo(s, msgs, j).Ack?
    requires ReplyTo(s, msgs, i).ip == ReplyTo(s, msgs, j).ip
    ensures msgs[i].mac == msgs[j].mac
  {
    ReplyIsLeased(s, msgs, i, |msgs|);
    ReplyIsLeased(s, msgs, j, |msgs|);
  }

  /** A Request naming an address offered earlier is acknowledged with it, whatever came between. */
  lemma OfferIsAcknowledged(s: Leases, msgs: seq<Msg>, i: nat, j: nat)
    requires Valid(s) && i < j < |msgs|
    requires ReplyTo(s, msgs, i).Offer?
    requires msgs[j] == Msg(Request, msgs[i].mac, Some(ReplyTo(s, msgs, i).ip))
    ensures ReplyTo(s, msgs, j) == Ack(ReplyTo(s, msgs, i).ip)
  {
    ReplyIsLeased(s, msgs, i, j);
  }

  //
  // Conservation of the pool
  //

  ghost predicate Accounted(s: Leases, pool: set<u32>)
  {
    (set ip | ip in s.free) + s.leased.Keys == pool
  }

  ghost predicate RequestsWithin(msgs: seq<Msg>, n: nat, pool: set<u32>)
    requires n <= |msgs|
  {
    forall i :: 0 <= i < n && msgs[i].kind != Other && msgs[i].requested.Some? ==> msgs[i].requested.value in pool
  }

  lemma HandleConserves(s: Leases, msg: Msg, pool: set<u32>)
    requires Valid(s) && Accounted(s, pool)
    ensures Accounted(Handle(s, msg).0, pool) <==>
            (msg.kind != Other && msg.requested.Some? ==> msg.requested.value in pool)
  {
    var s' := Handle(s, msg).0;
    if msg.kind != Other {
      if Grantable(s, msg.mac, msg.requested) {
        var ip := msg.requested.value;
        assert ip in s'.leased;
        if ip in pool {
          forall x ensures x in (set ip | ip in s'.free) + s'.leased.Keys <==> x in pool {
            assert x in pool <==> x in s.free || x in s.leased;
          }
        }
      } else {
        forall x ensures x in (set ip | ip in s'.free) + s'.leased.Keys <==> x in pool {
          assert x in pool <==> x in s.free || x in s.leased;
          if s.free != [] {
            assert s.free == [s.free[0]] + s.free[1..];
          }
        }
      }
    }
  }

  /** The first request outside the pool is granted, so its address stays leased. */
  lemma {:induction false} StrayStaysOut(s: Leases, msgs: seq<Msg>, n: nat, pool: set<u32>)
    requires Valid(s) && Accounted(s, pool) && n <= |msgs|
    requires !RequestsWithin(msgs, n, pool)
    ensures exists ip :: ip in State(s, msgs, n).leased && ip !in pool
  {
    LeasesNeverMove(s, msgs, n - 1, n);
    if RequestsWithin(msgs, n - 1, pool) {
      WithinIsAccounted(s, msgs, n - 1, pool);
      var ip := msgs[n - 1].requested.value;
      assert ip in State(s, msgs, n).leased;
    } else {
      StrayStaysOut(s, msgs, n - 1, pool);
    }
  }

  lemma {:induction false} WithinIsAccounted(s: Leases, msgs: seq<Msg>, n: nat, pool: set<u32>)
    requires Valid(s) && Accounted(s, pool) && n <= |msgs|
    requires RequestsWithin(msgs, n, pool)
    ensures Accounted(State(s, msgs, n), pool)
  {
    if n > 0 {
      WithinIsAccounted(s, msgs, n - 1, pool);
      LeasesNeverMove(s, msgs, n - 1, n);
      HandleConserves(State(s, msgs, n - 1), msgs[n - 1], pool);
    }
  }

  /**
   Free and leased addresses together stay the initial pool exactly as long as every
   requested address lies in it: a request outside the pool is granted and adds to it.
   */
  lemma PoolIsConservedIff(s: Leases, msgs: seq<Msg>, n: nat, pool: set<u32>)
    requires Valid(s) && Accounted(s, pool) && n <= |msgs|
    ensures Accounted(State(s, msgs, n), pool) <==> RequestsWithin(msgs, n, pool)
  {
    if RequestsWithin(msgs, n, pool) {
      WithinIsAccounted(s, msgs, n, pool);
    } else {
      StrayStaysOut(s, msgs, n, pool);
    }
  }
}
