/**
 Whole runs of a device's receive side: the switch enqueues, the guest offers chains, and
 the device thread drains, on any number of queues that share one list of pending packets.
 */
module ReceiveRuns {
  import opened Bytes
  import opened Frame
  import opened VirtQueue

  /** A receive queue with every chain ever offered to it. */
  datatype Ring = Ring(enabled: bool, mapped: bool, offered: seq<Chain>, avail: seq<Chain>, used: seq<Filled>)

  /** `delivered` and `lost` say which ring each packet went to; `ever` is every packet enqueued. */
  datatype Rx = Rx(
    rings: seq<Ring>, pending: seq<EthernetPacket>, ever: seq<EthernetPacket>,
    delivered: seq<(nat, EthernetPacket)>, lost: seq<(nat, EthernetPacket)>, alive: bool)

  datatype Event =
    | Enqueue(pkt: EthernetPacket)
    | Offer(ring: nat, chain: Chain)
    | Setup(ring: nat, enabled: bool, mapped: bool)
    | Wake(ring: nat)

  function Init(n: nat): (r: Rx)
  {
    Rx(seq(n, _ => Ring(false, false, [], [], [])), [], [], [], [], true)
  }

  function Tagged(i: nat, pkts: seq<EthernetPacket>): (r: seq<(nat, EthernetPacket)>)
  {
    if pkts == [] then [] else Tagged(i, pkts[..|pkts| - 1]) + [(i, pkts[|pkts| - 1])]
  }

  /** `handle_rx_queued` on ring `i`; an error ends the device thread. */
  function WakeRing(s: Rx, i: nat): (r: Rx)
    requires i < |s.rings|
  {
    var ring := s.rings[i];
    if s.pending == [] then s
    else if !ring.mapped then s.(alive := false)
    else
      var d := Drain(s.pending, ring.avail);
      Rx(s.rings[i := ring.(avail := d.avail, used := ring.used + d.filled)], d.pending, s.ever,
         s.delivered + Tagged(i, d.delivered), s.lost + Tagged(i, d.lost), d.lost == [] && ring.enabled)
  }

  /** The object's queue is ring `i` of the run. */
  predicate IsRing(s: Rx, i: nat, q: VirtQueue)
    requires i < |s.rings|
    reads q, q.pending
  {
    && s.pending == q.pending.packets && s.rings[i].avail == q.avail && s.rings[i].used == q.used
    && s.rings[i].enabled == q.enabled && s.rings[i].mapped == q.mapped
  }

  /** The object does what a wake does in a run; the thread goes on exactly if it succeeds. */
  method WakeQueue(q: VirtQueue, ghost s: Rx, ghost i: nat) returns (r: Result)
    requires i < |s.rings| && s.alive && IsRing(s, i, q)
    modifies q, q.pending
    ensures |WakeRing(s, i).rings| == |s.rings| && IsRing(WakeRing(s, i), i, q)
    ensures WakeRing(s, i).alive <==> r == Done
  {
    r := q.HandleRxQueued();
  }

  function Next(s: Rx, e: Event): (r: Rx)
  {
    match e
    case Enqueue(pkt) => s.(pending := s.pending + [pkt], ever := s.ever + [pkt])
    case Offer(i, chain) =>
      if i < |s.rings| then
        var ring := s.rings[i];
        s.(rings := s.rings[i := ring.(offered := ring.offered + [chain], avail := ring.avail + [chain])])
      else s
    case Setup(i, enabled, mapped) =>
      if s.alive && i < |s.rings| then s.(rings := s.rings[i := s.rings[i].(enabled := enabled, mapped := mapped)])
      else s
    case Wake(i) => if s.alive && i < |s.rings| then WakeRing(s, i) else s
  }

  function Run(s: Rx, events: seq<Event>): (r: Rx)
  {
    if events == [] then s else Next(Run(s, events[..|events| - 1]), events[|events| - 1])
  }

  /** The packets of a log, and those of one ring. */
  function Packets(log: seq<(nat, EthernetPacket)>): (r: seq<EthernetPacket>)
  {
    if log == [] then [] else Packets(log[..|log| - 1]) + [log[|log| - 1].1]
  }

  function OfRing(log: seq<(nat, EthernetPacket)>, i: nat): (r: seq<EthernetPacket>)
  {
    if log == [] then []
    else
      var rest := OfRing(log[..|log| - 1], i);
      if log[|log| - 1].0 == i then rest + [log[|log| - 1].1] else rest
  }

  lemma LogSnoc(log: seq<(nat, EthernetPacket)>, x: (nat, EthernetPacket), j: nat)
    ensures Packets(log + [x]) == Packets(log) + [x.1]
    ensures OfRing(log + [x], j) == if x.0 == j then OfRing(log, j) + [x.1] else OfRing(log, j)
  {
    assert (log + [x])[..|log|] == log;
  }

  lemma {:induction false} TaggedLog(log: seq<(nat, EthernetPacket)>, i: nat, pkts: seq<EthernetPacket>, j: nat)
    ensures Packets(log + Tagged(i, pkts)) == Packets(log) + pkts
    ensures OfRing(log + Tagged(i, pkts), j) == if i == j then OfRing(log, j) + pkts else OfRing(log, j)
  {
    if pkts == [] {
      assert log + Tagged(i, pkts) == log;
    } else {
      var n := |pkts| - 1;
      var front, x := log + Tagged(i, pkts[..n]), (i, pkts[n]);
      TaggedLog(log, i, pkts[..n], j);
      LogSnoc(front, x, j);
      assert log + Tagged(i, pkts) == front + [x];
      SnocAssoc(Packets(log), pkts, n);
      SnocAssoc(OfRing(log, j), pkts, n);
    }
  }

  lemma SnocAssoc(a: seq<EthernetPacket>, pkts: seq<EthernetPacket>, n: nat)
    requires |pkts| == n + 1
    ensures (a + pkts[..n]) + [pkts[n]] == a + pkts
  {
  }

  /**
   Ring `i` has returned one used entry per packet delivered to it, filled in the order the
   chains were offered, and has popped no other chain but those of lost packets.
   */
  ghost predicate RingInv(s: Rx, i: nat)
    requires i < |s.rings|
  {
    var ring := s.rings[i];
    var took := OfRing(s.delivered, i);
    && |ring.used| == |took|
    && |ring.offered| == |took| + |OfRing(s.lost, i)| + |ring.avail|
    && ring.avail == ring.offered[|ring.offered| - |ring.avail|..]
    && (s.alive ==> OfRing(s.lost, i) == [])
    && forall k :: 0 <= k < |took| ==> Returns(ring.used[k], ring.offered[k].head, took[k])
  }

  ghost predicate Inv(s: Rx)
  {
    && Packets(s.delivered) + Packets(s.lost) + s.pending == s.ever
    && |Packets(s.lost)| <= 1 && (s.alive ==> s.lost == [])
    && forall i :: 0 <= i < |s.rings| ==> RingInv(s, i)
  }

  lemma RingStays(s: Rx, t: Rx, i: nat)
    requires i < |s.rings| && i < |t.rings| && RingInv(s, i)
    requires OfRing(t.delivered, i) == OfRing(s.delivered, i) && OfRing(t.lost, i) == OfRing(s.lost, i)
    requires t.alive ==> s.alive
    requires t.rings[i].used == s.rings[i].used && t.rings[i].offered == s.rings[i].offered
    requires t.rings[i].avail == s.rings[i].avail
    ensures RingInv(t, i)
  {
  }

  lemma OfferedRing(s: Rx, i: nat, chain: Chain)
    requires i < |s.rings| && RingInv(s, i)
    ensures RingInv(Next(s, Offer(i, chain)), i)
  {
    var ring := s.rings[i];
    var cut := |ring.offered| - |ring.avail|;
    assert (ring.offered + [chain])[cut..] == ring.offered[cut..] + [chain];
  }

  /** What a drain does to a ring that had popped one chain per packet so far. */
  lemma FilledAfter(ring: Ring, took: seq<EthernetPacket>, d: Drained)
    requires |ring.offered| == |took| + |ring.avail| && |ring.used| == |took|
    requires ring.avail == ring.offered[|took|..]
    requires forall k :: 0 <= k < |took| ==> Returns(ring.used[k], ring.offered[k].head, took[k])
    requires |d.filled| == |d.delivered| <= |ring.avail|
    requires forall k :: 0 <= k < |d.delivered| ==> Returns(d.filled[k], ring.avail[k].head, d.delivered[k])
    ensures forall k :: 0 <= k < |took + d.delivered| ==>
              Returns((ring.used + d.filled)[k], ring.offered[k].head, (took + d.delivered)[k])
  {
    forall k | 0 <= k < |took + d.delivered|
      ensures Returns((ring.used + d.filled)[k], ring.offered[k].head, (took + d.delivered)[k])
    {
      if k >= |took| {
        assert ring.avail[k - |took|] == ring.offered[k];
      }
    }
  }

  lemma TailOfTail(s: seq<Chain>, m: nat, tail: seq<Chain>, n: nat)
    requires m <= |s| && tail == s[m..] && n <= |tail|
    ensures tail[|tail| - n..] == s[|s| - n..]
  {
  }

  lemma DrainFacts(pending: seq<EthernetPacket>, avail: seq<Chain>, d: Drained)
    requires d == Drain(pending, avail)
    ensures |d.filled| == |d.delivered| && |d.delivered| + |d.lost| + |d.avail| == |avail|
    ensures d.avail == avail[|avail| - |d.avail|..]
    ensures forall k :: 0 <= k < |d.delivered| ==> Returns(d.filled[k], avail[k].head, d.delivered[k])
  {
    DrainFills(pending, avail, 0);
    DrainTail(pending, avail);
    forall k | 0 <= k < |d.delivered| ensures Returns(d.filled[k], avail[k].head, d.delivered[k]) {
      DrainFills(pending, avail, k);
    }
  }

  /** The drained ring itself. */
  lemma DrainedRing(s: Rx, i: nat)
    requires i < |s.rings| && RingInv(s, i) && s.alive && s.pending != [] && s.rings[i].mapped
    ensures RingInv(WakeRing(s, i), i)
  {
    var d := Drain(s.pending, s.rings[i].avail);
    TaggedLog(s.delivered, i, d.delivered, i);
    TaggedLog(s.lost, i, d.lost, i);
    DrainFacts(s.pending, s.rings[i].avail, d);
    DrainedRingInv(s, WakeRing(s, i), i, d);
  }

  lemma DrainedRingInv(s: Rx, t: Rx, i: nat, d: Drained)
    requires i < |s.rings| && RingInv(s, i) && s.alive && i < |t.rings|
    requires t.rings[i] == s.rings[i].(avail := d.avail, used := s.rings[i].used + d.filled)
    requires OfRing(t.delivered, i) == OfRing(s.delivered, i) + d.delivered
    requires OfRing(t.lost, i) == OfRing(s.lost, i) + d.lost && (t.alive ==> d.lost == [])
    requires |d.filled| == |d.delivered| && |d.delivered| + |d.lost| + |d.avail| == |s.rings[i].avail|
    requires d.avail == s.rings[i].avail[|s.rings[i].avail| - |d.avail|..]
    requires forall k :: 0 <= k < |d.delivered| ==> Returns(d.filled[k], s.rings[i].avail[k].head, d.delivered[k])
    ensures RingInv(t, i)
  {
    hide OfRing, Returns;
    var ring := s.rings[i];
    TakesInOrder(s, i);
    FilledAfter(ring, OfRing(s.delivered, i), d);
    TailOfTail(ring.offered, |ring.offered| - |ring.avail|, ring.avail, |d.avail|);
  }

  lemma TakesInOrder(s: Rx, i: nat)
    requires i < |s.rings| && RingInv(s, i) && s.alive
    ensures |s.rings[i].offered| == |OfRing(s.delivered, i)| + |s.rings[i].avail|
  {
  }

  lemma {:induction false} DrainTail(pending: seq<EthernetPacket>, avail: seq<Chain>)
    ensures |Drain(pending, avail).avail| <= |avail|
    ensures Drain(pending, avail).avail == avail[|avail| - |Drain(pending, avail).avail|..]
    decreases pending
  {
    if pending != [] && avail != [] && avail[0].capacity >= 26 + |pending[0].payload| {
      DrainTail(pending[1..], avail[1..]);
    }
  }

  lemma Regroup(p: seq<EthernetPacket>, pending: seq<EthernetPacket>, d: Drained, ever: seq<EthernetPacket>)
    requires p + [] + pending == ever && d.delivered + d.lost + d.pending == pending
    ensures (p + d.delivered) + ([] + d.lost) + d.pending == ever
  {
  }

  lemma WakeKeepsTotals(s: Rx, i: nat)
    requires Inv(s) && i < |s.rings| && s.alive && s.pending != [] && s.rings[i].mapped
    ensures var t := WakeRing(s, i);
            && Packets(t.delivered) + Packets(t.lost) + t.pending == t.ever
            && |Packets(t.lost)| <= 1 && (t.alive ==> t.lost == [])
  {
    var d := Drain(s.pending, s.rings[i].avail);
    TaggedLog(s.delivered, i, d.delivered, i);
    TaggedLog(s.lost, i, d.lost, i);
    DrainConserves(s.pending, s.rings[i].avail);
    Regroup(Packets(s.delivered), s.pending, d, s.ever);
  }

  /** The rings that were not drained. */
  lemma OtherRing(s: Rx, i: nat, j: nat)
    requires i < |s.rings| && j < |s.rings| && i != j && RingInv(s, j)
    requires s.alive && s.pending != [] && s.rings[i].mapped
    ensures RingInv(WakeRing(s, i), j)
  {
    hide RingInv, OfRing, Packets, Tagged, Drain;
    var d := Drain(s.pending, s.rings[i].avail);
    TaggedLog(s.delivered, i, d.delivered, j);
    TaggedLog(s.lost, i, d.lost, j);
    RingStays(s, WakeRing(s, i), j);
  }

  /** Nothing to drain, or nowhere to. */
  lemma NoDrain(s: Rx, i: nat)
    requires Inv(s) && i < |s.rings| && s.alive && (s.pending == [] || !s.rings[i].mapped)
    ensures Inv(WakeRing(s, i))
  {
    hide RingInv, OfRing, Packets;
    var t := WakeRing(s, i);
    forall j | 0 <= j < |t.rings| ensures RingInv(t, j) {
      RingStays(s, t, j);
    }
  }

  lemma WakeKeeps(s: Rx, i: nat)
    requires Inv(s) && i < |s.rings| && s.alive
    ensures Inv(WakeRing(s, i))
  {
    hide RingInv, OfRing, Packets, WakeRing;
    if s.pending != [] && s.rings[i].mapped {
      WakeKeepsTotals(s, i);
      SameRings(s, i);
      forall j | 0 <= j < |s.rings| ensures RingInv(WakeRing(s, i), j) {
        if j == i {
          DrainedRing(s, i);
        } else {
          OtherRing(s, i, j);
        }
      }
    } else {
      NoDrain(s, i);
    }
  }

  lemma SameRings(s: Rx, i: nat)
    requires i < |s.rings|
    ensures |WakeRing(s, i).rings| == |s.rings|
  {
  }

  lemma NextKeeps(s: Rx, e: Event)
    requires Inv(s)
    ensures Inv(Next(s, e))
  {
    var t := Next(s, e);
    match e
    case Wake(i) => if s.alive && i < |s.rings| { WakeKeeps(s, i); }
    case Enqueue(pkt) =>
      forall j | 0 <= j < |t.rings| ensures RingInv(t, j) { RingStays(s, t, j); }
    case Setup(i, enabled, mapped) =>
      forall j | 0 <= j < |t.rings| ensures RingInv(t, j) { RingStays(s, t, j); }
    case Offer(i, chain) =>
      forall j | 0 <= j < |t.rings| ensures RingInv(t, j) {
        if j == i { OfferedRing(s, i, chain); } else { RingStays(s, t, j); }
      }
  }

  /**
   Over any interleaving of enqueues, offers and drains: the packets delivered, the one that
   may have been lost to a chain too small for it, and those still pending are the packets
   ever enqueued, in order; each ring's used entries, in the order its chains were offered,
   carry exactly the packets delivered to it; and while the thread lives nothing is lost.
   */
  lemma {:induction false} EveryRunConserves(n: nat, events: seq<Event>)
    ensures Inv(Run(Init(n), events))
  {
    if events != [] {
      var before := events[..|events| - 1];
      EveryRunConserves(n, before);
      NextKeeps(Run(Init(n), before), events[|events| - 1]);
    }
  }
}
