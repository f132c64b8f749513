/**
 The learning switch of oathgate-bridge/src/net/switch.rs, one caller at a time.
 */
module Switch {
  import opened Bytes
  import opened Frame

  type Cache = map<Mac, nat>

  /** Ports `0..n` without `port`, ascending. */
  function AllBut(n: nat, port: nat): (r: seq<nat>)
    ensures forall x :: x in r <==> 0 <= x < n && x != port
  {
    if n == 0 then []
    else if n - 1 == port then AllBut(n - 1, port)
    else AllBut(n - 1, port) + [n - 1]
  }

  /** The ports a frame goes to, `cache` being up to date and `n` ports connected. */
  function Targets(cache: Cache, n: nat, port: nat, dst: Mac): (r: seq<nat>)
  {
    if dst == BROADCAST then AllBut(n, port)
    else if dst in cache && cache[dst] < n then [cache[dst]]
    else []
  }

  /** `process`: the new cache, the packet without its header, and the ports it goes to. */
  datatype Processed = Processed(cache: Cache, pkt: EthernetPacket, targets: seq<nat>) | Rejected

  function Process(cache: Cache, n: nat, port: nat, bytes: seq<u8>): (r: Processed)
  {
    match ExtractFrame(bytes)
    case None => Rejected
    case Some(pkt) =>
      var cache' := cache[pkt.frame.src := port];
      Processed(cache', pkt, Targets(cache', n, port, pkt.frame.dst))
  }

  datatype Call = Call(port: nat, bytes: seq<u8>)

  /** Each target port, and no other, got the packet at the end of its queue. */
  predicate Delivered(before: seq<seq<EthernetPacket>>, after: seq<seq<EthernetPacket>>, pkt: EthernetPacket,
                      targets: seq<nat>)
  {
    |after| == |before|
    && forall i :: 0 <= i < |after| ==> after[i] == before[i] + if i in targets then [pkt] else []
  }

  class VirtioSwitch {
    /** What each connected device has been handed. */
    var ports: seq<seq<EthernetPacket>>
    var cache: Cache
    /** Every call of `process` so far. */
    ghost var calls: seq<Call>

    constructor ()
      ensures ports == [] && cache == map[] && calls == []
    {
      ports := [];
      cache := map[];
      calls := [];
    }

    method Connect() returns (idx: nat)
      modifies this
      ensures idx == |old(ports)| && ports == old(ports) + [[]] && cache == old(cache) && calls == old(calls)
    {
      idx := |ports|;
      ports := ports + [[]];
    }

    method AssociatePort(port: nat, mac: Mac)
      modifies this
      ensures cache == old(cache)[mac := port] && ports == old(ports) && calls == old(calls)
    {
      cache := cache[mac := port];
    }

    method Enqueue(port: nat, pkt: EthernetPacket)
      requires port < |ports|
      modifies this
      ensures ports == old(ports)[port := old(ports)[port] + [pkt]] && cache == old(cache) && calls == old(calls)
    {
      ports := ports[port := ports[port] + [pkt]];
    }

    method ProcessFrame(port: nat, bytes: seq<u8>) returns (ok: bool)
      modifies this
      ensures |ports| == |old(ports)| && calls == old(calls) + [Call(port, bytes)]
      ensures old(cache) == After(old(calls)) ==> cache == After(calls)
      ensures match Process(old(cache), |old(ports)|, port, bytes)
              case Rejected => !ok && cache == old(cache) && ports == old(ports)
              case Processed(c, pkt, targets) =>
                ok && cache == c && Delivered(old(ports), ports, pkt, targets)
    {
      AfterAppend(calls, Call(port, bytes));
      calls := calls + [Call(port, bytes)];
      var extracted := ExtractFrame(bytes);
      if extracted.None? {
        return false;
      }
      var pkt := extracted.value;
      if Get(cache, pkt.frame.src) != Some(port) {
        AssociatePort(port, pkt.frame.src);
      }
      assert cache == old(cache)[pkt.frame.src := port];
      if pkt.frame.dst == BROADCAST {
        for idx := 0 to |ports|
          invariant |ports| == |old(ports)| && cache == old(cache)[pkt.frame.src := port]
          invariant calls == old(calls) + [Call(port, bytes)]
          invariant forall i :: 0 <= i < |ports| ==>
                      ports[i] == old(ports)[i] + if i < idx && i != port then [pkt] else []
        {
          if idx != port {
            Enqueue(idx, pkt);
          }
        }
      } else {
        var dst := Get(cache, pkt.frame.dst);
        if dst.Some? && dst.value < |ports| {
          Enqueue(dst.value, pkt);
        }
      }
      ok := true;
    }
  }

  //
  // The cache against the history of calls
  //

  function SourceOf(call: Call): (r: Option<Mac>)
  {
    match ExtractFrame(call.bytes)
    case Some(pkt) => Some(pkt.frame.src)
    case None => None
  }

  function Learn(cache: Cache, call: Call): (r: Cache)
  {
    match SourceOf(call)
    case Some(src) => cache[src := call.port]
    case None => cache
  }

  /** The cache after a sequence of calls. */
  function After(calls: seq<Call>): (r: Cache)
  {
    if calls == [] then map[] else Learn(After(calls[..|calls| - 1]), calls[|calls| - 1])
  }

  lemma AfterAppend(calls: seq<Call>, call: Call)
    ensures After(calls + [call]) == Learn(After(calls), call)
  {
    assert (calls + [call])[..|calls|] == calls;
  }

  /** Call `i` carried a frame from `mac` on `port`, and no later one came from another port. */
  ghost predicate StaysOn(calls: seq<Call>, i: nat, mac: Mac, port: nat)
  {
    && i < |calls| && SourceOf(calls[i]) == Some(mac) && calls[i].port == port
    && forall j :: i < j < |calls| && SourceOf(calls[j]) == Some(mac) ==> calls[j].port == port
  }

  /** One caller at a time, the cache is the last port each MAC was seen on. */
  lemma {:induction false} CacheIsLastSeen(calls: seq<Call>, i: nat, mac: Mac, port: nat)
    requires StaysOn(calls, i, mac, port)
    ensures Get(After(calls), mac) == Some(port)
  {
    var n := |calls| - 1;
    if i < n && SourceOf(calls[n]) != Some(mac) {
      assert StaysOn(calls[..n], i, mac, port);
      CacheIsLastSeen(calls[..n], i, mac, port);
    }
  }

  /** A MAC is cached exactly when a frame from it was accepted. */
  lemma {:induction false} CacheDomain(calls: seq<Call>, mac: Mac)
    ensures mac in After(calls) <==> exists i :: 0 <= i < |calls| && SourceOf(calls[i]) == Some(mac)
  {
    if calls != [] {
      var n := |calls| - 1;
      CacheDomain(calls[..n], mac);
      assert mac in After(calls) <==> mac in After(calls[..n]) || SourceOf(calls[n]) == Some(mac);
    }
  }

  /** A broadcast goes to every port but the sender's exactly once, and to no other. */
  lemma {:induction false} BroadcastOnceEach(n: nat, port: nat, x: nat)
    ensures multiset(AllBut(n, port))[x] == if x < n && x != port then 1 else 0
  {
    if n > 0 {
      BroadcastOnceEach(n - 1, port, x);
    }
  }

  /**
   An accepted frame teaches its source's port; a broadcast then goes to each of the `n` connected
   ports but the sender's once, and a unicast frame to the port of its destination alone, which is the
   sender's if the destination is the source, and otherwise the one it was heard on before.
   */
  lemma FrameReaches(cache: Cache, n: nat, port: nat, bytes: seq<u8>, pkt: EthernetPacket, x: nat)
    requires ExtractFrame(bytes) == Some(pkt)
    ensures var p := Process(cache, n, port, bytes);
            var known := if pkt.frame.dst == pkt.frame.src then Some(port) else Get(cache, pkt.frame.dst);
            && p.Processed? && p.pkt == pkt && p.cache == cache[pkt.frame.src := port]
            && multiset(p.targets)[x]
               == if pkt.frame.dst == BROADCAST then (if x < n && x != port then 1 else 0)
                  else if known == Some(x) && x < n then 1 else 0
  {
    BroadcastOnceEach(n, port, x);
  }

  /**
   There is no flooding of unknown destinations: a unicast frame reaches no port at all
   exactly when no frame from its destination was ever accepted.
   */
  lemma UnicastIsDroppedIffUnseen(calls: seq<Call>, n: nat, port: nat, dst: Mac)
    requires dst != BROADCAST
    requires forall i :: 0 <= i < |calls| ==> calls[i].port < n
    ensures Targets(After(calls), n, port, dst) == [] <==> forall i :: 0 <= i < |calls| ==>
              SourceOf(calls[i]) != Some(dst)
  {
    CacheDomain(calls, dst);
    if dst in After(calls) {
      PortsAreCallers(calls, dst);
    }
  }

  lemma {:induction false} PortsAreCallers(calls: seq<Call>, mac: Mac)
    requires mac in After(calls)
    ensures exists i :: 0 <= i < |calls| && calls[i].port == After(calls)[mac]
  {
    var n := |calls| - 1;
    if SourceOf(calls[n]) != Some(mac) {
      PortsAreCallers(calls[..n], mac);
      var i :| 0 <= i < n && calls[..n][i].port == After(calls[..n])[mac];
      assert calls[i].port == After(calls)[mac];
    }
  }
}
