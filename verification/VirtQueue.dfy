/**
 Virtqueues of oathgate-vhost/src/queue.rs over what the virtio library shows of them:
 the available descriptor chains and the used entries. Section 2.6 of Virtio 1.1.
 */
module VirtQueue {
  import opened Bytes
  import opened Frame
  import Switch

  const VIRTIO_HDR_SIZE := 12
  const READ_BUFFER := 4096

  /** An available chain: what the driver wrote in it, and how much the device may write. */
  datatype Chain = Chain(head: u16, content: seq<u8>, capacity: nat)

  datatype Used = Used(head: u16, len: u32)

  datatype Result = Done | NoMappedMemory | QueueDisabled | WriteFailed | NotEnoughData | SwitchPanic

  //
  // Receiving: from the pending packets to the guest
  //

  /** `VirtioNetHeader::new`: all zero but one buffer. */
  const VIRTIO_HDR: seq<u8> := [0, 0, 0, 0, 0, 0, 0, 0, 0, 0, 1, 0]

  /** What the guest gets for a packet: virtio header, Ethernet header, payload. */
  function RxBytes(pkt: EthernetPacket): (r: seq<u8>)
    ensures |r| == 26 + |pkt.payload|
  {
    VIRTIO_HDR + FrameBytes(pkt.frame) + pkt.payload
  }

  /** A used entry together with what was written into its chain. */
  datatype Filled = Filled(used: Used, bytes: seq<u8>)

  function Fill(chain: Chain, pkt: EthernetPacket): (r: Filled)
  {
    Filled(Used(chain.head, (26 + |pkt.payload|) % 0x1_0000_0000), RxBytes(pkt))
  }

  /**
   A used entry says whose chain it returns and how many bytes it holds: the virtio header, all zeros
   but for the one buffer of its last two bytes, the frame's header of 14 bytes, and the payload.
   */
  ghost predicate Returns(f: Filled, head: u16, pkt: EthernetPacket)
  {
    && f.used.head == head && f.used.len == (12 + 14 + |pkt.payload|) % 0x1_0000_0000
    && |f.bytes| == 12 + 14 + |pkt.payload|
    && (forall k :: 0 <= k < 12 ==> f.bytes[k] == if k == 10 then 1 else 0)
    && f.bytes[12..26] == FrameBytes(pkt.frame) && f.bytes[26..] == pkt.payload
  }

  lemma FillReturns(chain: Chain, pkt: EthernetPacket)
    ensures Returns(Fill(chain, pkt), chain.head, pkt)
  {
    var bytes := RxBytes(pkt);
    assert bytes[12..26] == FrameBytes(pkt.frame) && bytes[26..] == pkt.payload;
  }

  /** One drain: what is delivered, the packet lost to a chain too small for it, and what is left. */
  datatype Drained = Drained(
    delivered: seq<EthernetPacket>, filled: seq<Filled>, lost: seq<EthernetPacket>,
    pending: seq<EthernetPacket>, avail: seq<Chain>)

  function Drain(pending: seq<EthernetPacket>, avail: seq<Chain>): (r: Drained)
    decreases pending
  {
    if pending == [] || avail == [] then Drained([], [], [], pending, avail)
    else if avail[0].capacity < 26 + |pending[0].payload| then Drained([], [], [pending[0]], pending[1..], avail[1..])
    else Resume([pending[0]], [Fill(avail[0], pending[0])], Drain(pending[1..], avail[1..]))
  }

  /** The result of going on with `rest` after some deliveries. */
  function Resume(pkts: seq<EthernetPacket>, filled: seq<Filled>, rest: Drained): (r: Drained)
  {
    rest.(delivered := pkts + rest.delivered, filled := filled + rest.filled)
  }

  /** A drain loses nothing but `lost` and reorders nothing. */
  lemma {:induction false} DrainConserves(pending: seq<EthernetPacket>, avail: seq<Chain>)
    ensures var d := Drain(pending, avail);
            && d.delivered + d.lost + d.pending == pending
            && |d.lost| <= 1
            && (d.lost == [] ==> d.pending == [] || d.avail == [])
    decreases pending
  {
    if pending != [] && avail != [] && avail[0].capacity >= 26 + |pending[0].payload| {
      var d := Drain(pending[1..], avail[1..]);
      DrainConserves(pending[1..], avail[1..]);
      assert Drain(pending, avail) == Resume([pending[0]], [Fill(avail[0], pending[0])], d);
      hide Drain, Fill;
      Regrouped(pending, d);
    }
  }

  lemma Regrouped(pending: seq<EthernetPacket>, d: Drained)
    requires pending != [] && d.delivered + d.lost + d.pending == pending[1..]
    ensures [pending[0]] + d.delivered + d.lost + d.pending == pending
  {
    assert [pending[0]] + d.delivered + d.lost + d.pending == [pending[0]] + (d.delivered + d.lost + d.pending);
  }

  /** A drain pops one chain per packet taken, and returns chain `k` with packet `k` in it. */
  lemma {:induction false} DrainFills(pending: seq<EthernetPacket>, avail: seq<Chain>, k: nat)
    ensures var d := Drain(pending, avail);
            && |d.filled| == |d.delivered|
            && |d.delivered| + |d.lost| + |d.avail| == |avail|
            && (k < |d.delivered| ==> k < |avail| && Returns(d.filled[k], avail[k].head, d.delivered[k]))
    decreases pending
  {
    hide Returns, Fill;
    if pending != [] && avail != [] {
      FillReturns(avail[0], pending[0]);
    }
    if pending != [] && avail != [] && avail[0].capacity >= 26 + |pending[0].payload| {
      DrainFills(pending[1..], avail[1..], if k > 0 then k - 1 else 0);
    }
  }

  /** A packet is lost exactly when some packet meets a chain that cannot hold it. */
  lemma {:induction false} DrainLosesIff(pending: seq<EthernetPacket>, avail: seq<Chain>)
    ensures Drain(pending, avail).lost != [] <==>
            exists k :: 0 <= k < |pending| && k < |avail| && avail[k].capacity < 26 + |pending[k].payload|
    decreases pending
  {
    if pending != [] && avail != [] && avail[0].capacity >= 26 + |pending[0].payload| {
      DrainLosesIff(pending[1..], avail[1..]);
      if Drain(pending[1..], avail[1..]).lost != [] {
        var k :| 0 <= k < |pending[1..]| && k < |avail[1..]| && avail[1..][k].capacity < 26 + |pending[1..][k].payload|;
        assert avail[k + 1].capacity < 26 + |pending[k + 1].payload|;
      } else {
        forall k | 0 <= k < |pending| && k < |avail| ensures avail[k].capacity >= 26 + |pending[k].payload| {
          if k > 0 {
            assert avail[k] == avail[1..][k - 1] && pending[k] == pending[1..][k - 1];
          }
        }
      }
    }
  }

  /** The packets waiting for a device, filled by the switch and emptied by its queues. */
  class RxQueue {
    var packets: seq<EthernetPacket>

    constructor ()
      ensures packets == []
    {
      packets := [];
    }

    /** `VirtioDeviceRxQueue::enqueue`. */
    method Enqueue(pkt: EthernetPacket)
      modifies this
      ensures packets == old(packets) + [pkt]
    {
      packets := packets + [pkt];
    }
  }

  class VirtQueue {
    const pending: RxQueue
    var enabled: bool
    var mapped: bool
    var avail: seq<Chain>
    /** The used ring, with what was written into each chain (nothing when transmitting). */
    var used: seq<Filled>
    var notified: nat

    constructor (pending: RxQueue)
      ensures this.pending == pending && !enabled && !mapped && avail == [] && used == [] && notified == 0
    {
      this.pending := pending;
      enabled, mapped, avail, used, notified := false, false, [], [], 0;
    }

    /** `call`: fails on a disabled queue. */
    method Call() returns (r: Result)
      modifies this
      ensures r == if enabled then Done else QueueDisabled
      ensures notified == old(notified) + if enabled then 1 else 0
      ensures avail == old(avail) && used == old(used) && enabled == old(enabled) && mapped == old(mapped)
    {
      if !enabled {
        return QueueDisabled;
      }
      notified := notified + 1;
      r := Done;
    }

    /** `handle_rx_queued`: drains the pending packets into the available chains. */
    method HandleRxQueued() returns (r: Result)
      modifies this, pending
      ensures enabled == old(enabled) && mapped == old(mapped)
      ensures var d := Drain(old(pending.packets), old(avail));
              if old(pending.packets) == [] || !mapped then
                && r == (if old(pending.packets) == [] then Done else NoMappedMemory)
                && pending.packets == old(pending.packets) && avail == old(avail) && used == old(used)
                && notified == old(notified)
              else
                && r == (if d.lost != [] then WriteFailed else if enabled then Done else QueueDisabled)
                && pending.packets == d.pending && avail == d.avail && used == old(used) + d.filled
                && notified == old(notified) + (if r == Done then 1 else 0)
    {
      if pending.packets == [] {
        return Done;
      }
      if !mapped {
        return NoMappedMemory;
      }
      var fits := DrainPending();
      if !fits {
        return WriteFailed;
      }
      r := Call();
    }

    /** The loop of `handle_rx_queued`; false when a chain could not hold its packet. */
    method DrainPending() returns (fits: bool)
      modifies this, pending
      ensures enabled == old(enabled) && mapped == old(mapped) && notified == old(notified)
      ensures var d := Drain(old(pending.packets), old(avail));
              && (fits <==> d.lost == [])
              && pending.packets == d.pending && avail == d.avail && used == old(used) + d.filled
    {
      ghost var goal := Drain(pending.packets, avail);
      ghost var took: seq<EthernetPacket> := [];
      ghost var filled: seq<Filled> := [];
      while pending.packets != []
        invariant goal == Resume(took, filled, Drain(pending.packets, avail))
        invariant used == old(used) + filled
        invariant enabled == old(enabled) && mapped == old(mapped) && notified == old(notified)
        decreases |pending.packets|
      {
        if avail == [] {
          break;
        }
        DrainStep(took, filled, pending.packets, avail);
        var chain := avail[0];
        avail := avail[1..];
        var pkt := pending.packets[0];
        pending.packets := pending.packets[1..];
        var bytes := VIRTIO_HDR + FrameBytes(pkt.frame) + pkt.payload;
        if chain.capacity < |bytes| {
          return false;
        }
        used := used + [Filled(Used(chain.head, |bytes| % 0x1_0000_0000), bytes)];
        took, filled := took + [pkt], filled + [Fill(chain, pkt)];
      }
      fits := true;
    }

    /** `kick_rx`: a zero kick counter means the queue is disabled. */
    method KickRx(counter: u64) returns (r: Result)
      modifies this, pending
      ensures enabled == old(enabled) && mapped == old(mapped)
      ensures var d := Drain(old(pending.packets), old(avail));
              if counter == 0 || old(pending.packets) == [] || !mapped then
                && r == (if counter == 0 then QueueDisabled
                         else if old(pending.packets) == [] then Done else NoMappedMemory)
                && pending.packets == old(pending.packets) && avail == old(avail) && used == old(used)
                && notified == old(notified)
              else
                && r == (if d.lost != [] then WriteFailed else if enabled then Done else QueueDisabled)
                && pending.packets == d.pending && avail == d.avail && used == old(used) + d.filled
                && notified == old(notified) + (if r == Done then 1 else 0)
    {
      if counter == 0 {
        return QueueDisabled;
      }
      r := HandleRxQueued();
    }

    /** `kick_tx`: every available chain is read, stripped of its virtio header and switched. */
    method KickTx(counter: u64, lan: Switch.VirtioSwitch, port: nat) returns (r: Result)
      modifies this, lan
      ensures enabled == old(enabled) && mapped == old(mapped)
      ensures var tx := Transmit(old(avail), port);
              if counter == 0 || !mapped then
                && r == (if counter == 0 then QueueDisabled else NoMappedMemory)
                && avail == old(avail) && used == old(used) && lan.calls == old(lan.calls)
              else
                && r == (if tx.error.Some? then tx.error.value else if enabled then Done else QueueDisabled)
                && avail == [] && used == old(used) + tx.used && lan.calls == old(lan.calls) + tx.calls
      ensures r == Done <==> counter != 0 && mapped && enabled && forall i :: 0 <= i < |old(avail)| ==>
                Switchable(old(avail)[i])
      ensures notified == old(notified) + if r == Done then 1 else 0
    {
      TransmitsAllIff(avail, port);
      ErrorsAreErrors(avail, port);
      if counter == 0 {
        return QueueDisabled;
      }
      if !mapped {
        return NoMappedMemory;
      }
      var chains := avail;
      avail := [];
      var error := TransmitChains(chains, lan, port);
      if error.Some? {
        return error.value;
      }
      r := Call();
    }

    /** The loop of `kick_tx`. */
    method TransmitChains(chains: seq<Chain>, lan: Switch.VirtioSwitch, port: nat) returns (error: Option<Result>)
      modifies this`used, lan
      ensures var tx := Transmit(chains, port);
              error == tx.error && used == old(used) + tx.used && lan.calls == old(lan.calls) + tx.calls
    {
      hide FrameBytes, ExtractFrame, Switch.After, Switch.Delivered, Switch.Targets;
      ghost var goal := Transmit(chains, port);
      ghost var calls: seq<Switch.Call> := [];
      ghost var done: seq<Filled> := [];
      for idx := 0 to |chains|
        invariant goal == ResumeTx(calls, done, Transmit(chains[idx..], port))
        invariant lan.calls == old(lan.calls) + calls && used == old(used) + done
      {
        TransmitStep(calls, done, chains, idx, port);
        var pkt := ReadChain(chains[idx].content);
        if |pkt| < VIRTIO_HDR_SIZE {
          return Some(NotEnoughData);
        }
        pkt := pkt[VIRTIO_HDR_SIZE..];
        var ok := lan.ProcessFrame(port, pkt);
        if !ok {
          return Some(SwitchPanic);
        }
        used := used + [Returned(chains[idx].head, pkt)];
        calls, done := calls + [Switch.Call(port, pkt)], done + [Returned(chains[idx].head, pkt)];
      }
      error := None;
    }
  }

  function Returned(head: u16, pkt: seq<u8>): (r: Filled)
  {
    Filled(Used(head, |pkt| % 0x1_0000_0000), [])
  }

  /** One turn of the transmit loop. */
  lemma TransmitStep(calls: seq<Switch.Call>, done: seq<Filled>, chains: seq<Chain>, idx: nat, port: nat)
    requires idx < |chains|
    ensures var c := chains[idx];
            ResumeTx(calls, done, Transmit(chains[idx..], port))
            == if |c.content| < VIRTIO_HDR_SIZE then ResumeTx(calls, done, Tx([], [], Some(NotEnoughData)))
               else
                 var bytes := c.content[VIRTIO_HDR_SIZE..];
                 if ExtractFrame(bytes).None?
                 then ResumeTx(calls, done, Tx([Switch.Call(port, bytes)], [], Some(SwitchPanic)))
                 else ResumeTx(calls + [Switch.Call(port, bytes)], done + [Returned(c.head, bytes)],
                               Transmit(chains[idx + 1..], port))
  {
    assert chains[idx..][1..] == chains[idx + 1..];
  }

  /** One turn of the drain loop. */
  lemma DrainStep(pkts: seq<EthernetPacket>, filled: seq<Filled>, pending: seq<EthernetPacket>, avail: seq<Chain>)
    requires pending != [] && avail != []
    ensures Resume(pkts, filled, Drain(pending, avail))
            == if avail[0].capacity < 26 + |pending[0].payload|
               then Resume(pkts, filled, Drained([], [], [pending[0]], pending[1..], avail[1..]))
               else Resume(pkts + [pending[0]], filled + [Fill(avail[0], pending[0])], Drain(pending[1..], avail[1..]))
  {
  }

  //
  // Transmitting: from the guest to the switch
  //

  /** The chunked read of a chain's content. */
  method ReadChain(content: seq<u8>) returns (pkt: seq<u8>)
    ensures pkt == content
  {
    var reader := content;
    pkt := [];
    while true
      invariant pkt + reader == content
      decreases |reader|
    {
      var sz := if |reader| < READ_BUFFER then |reader| else READ_BUFFER;
      pkt := pkt + reader[..sz];
      reader := reader[sz..];
      if sz < READ_BUFFER {
        break;
      }
    }
  }

  /** One transmit kick: the switch calls made, the chains returned, and how it failed. */
  datatype Tx = Tx(calls: seq<Switch.Call>, used: seq<Filled>, error: Option<Result>)

  function Transmit(chains: seq<Chain>, port: nat): (r: Tx)
    decreases chains
  {
    if chains == [] then Tx([], [], None)
    else if |chains[0].content| < VIRTIO_HDR_SIZE then Tx([], [], Some(NotEnoughData))
    else
      var bytes := chains[0].content[VIRTIO_HDR_SIZE..];
      if ExtractFrame(bytes).None? then Tx([Switch.Call(port, bytes)], [], Some(SwitchPanic))
      else
        ResumeTx([Switch.Call(port, bytes)], [Returned(chains[0].head, bytes)],
                 Transmit(chains[1..], port))
  }

  function ResumeTx(calls: seq<Switch.Call>, used: seq<Filled>, rest: Tx): (r: Tx)
  {
    rest.(calls := calls + rest.calls, used := used + rest.used)
  }

  lemma {:induction false} ErrorsAreErrors(chains: seq<Chain>, port: nat)
    ensures Transmit(chains, port).error != Some(Done)
    decreases chains
  {
    if chains != [] {
      ErrorsAreErrors(chains[1..], port);
    }
  }

  /** The chain holds a virtio header and a frame the switch accepts. */
  predicate Switchable(chain: Chain)
  {
    |chain.content| >= VIRTIO_HDR_SIZE && ExtractFrame(chain.content[VIRTIO_HDR_SIZE..]).Some?
  }

  /** The frames of a kick all go through exactly when every chain holds a frame the switch accepts. */
  lemma {:induction false} TransmitsAllIff(chains: seq<Chain>, port: nat)
    ensures var tx := Transmit(chains, port);
            && (tx.error == None <==> forall i :: 0 <= i < |chains| ==> Switchable(chains[i]))
            && (tx.error == None ==> |tx.calls| == |tx.used| == |chains|)
            && |tx.used| <= |tx.calls| <= |chains|
    decreases chains
  {
    if chains != [] && Switchable(chains[0]) {
      TransmitsAllIff(chains[1..], port);
      assert forall i :: 0 < i < |chains| ==> chains[i] == chains[1..][i - 1];
      if forall i :: 0 <= i < |chains| ==> Switchable(chains[i]) {
        assert forall i :: 0 <= i < |chains[1..]| ==> chains[1..][i] == chains[i + 1];
      }
    }
  }

  /**
   Up to the first chain without one, each frame is switched once, in order, and its chain returned
   with the number of its bytes behind the virtio header.
   */
  lemma {:induction false} TransmitsInOrder(chains: seq<Chain>, port: nat, k: nat)
    requires k < |Transmit(chains, port).used|
    ensures var tx := Transmit(chains, port);
            && k < |chains| && Switchable(chains[k]) && k < |tx.calls|
            && tx.calls[k] == Switch.Call(port, chains[k].content[12..])
            && tx.used[k] == Filled(Used(chains[k].head, (|chains[k].content| - 12) % 0x1_0000_0000), [])
    decreases chains
  {
    if k > 0 {
      TransmitsInOrder(chains[1..], port, k - 1);
    }
  }

  /** The first chain without an acceptable frame says how the kick failed, and is not returned. */
  lemma {:induction false} FirstBadChain(chains: seq<Chain>, port: nat)
    ensures var tx := Transmit(chains, port);
            tx.error.Some? ==>
              && |tx.used| < |chains| && !Switchable(chains[|tx.used|])
              && tx.error.value == (if |chains[|tx.used|].content| < 12 then NotEnoughData else SwitchPanic)
              && |tx.calls| == |tx.used| + if |chains[|tx.used|].content| < 12 then 0 else 1
    decreases chains
  {
    if chains != [] && Switchable(chains[0]) {
      FirstBadChain(chains[1..], port);
      var n := |Transmit(chains[1..], port).used|;
      if Transmit(chains[1..], port).error.Some? {
        assert chains[1..][n] == chains[n + 1];
      }
    }
  }

  lemma BehindTheHeader(f: Filled, head: u16, pkt: EthernetPacket)
    requires Returns(f, head, pkt)
    ensures |f.bytes| >= 12 && f.bytes[12..] == FrameBytes(pkt.frame) + pkt.payload
  {
    assert f.bytes[12..] == f.bytes[12..26] + f.bytes[26..];
  }

  /**
   From guest to guest: a frame of a supported ethertype for a learned destination is put
   on that port's queue alone, and once the queue has been drained far enough, the bytes
   after the receiver's virtio header are those after the sender's.
   */
  lemma GuestToGuest(chain: Chain, cache: Switch.Cache, n: nat, port: nat, to: nat, p: Switch.Processed,
                     waiting: seq<EthernetPacket>, more: seq<EthernetPacket>, avail: seq<Chain>, d: Drained)
    requires Switchable(chain) && to < n
    requires ExtractFrame(chain.content[VIRTIO_HDR_SIZE..]).value.frame.dst != BROADCAST
    requires var f := ExtractFrame(chain.content[VIRTIO_HDR_SIZE..]).value.frame;
             if f.dst == f.src then to == port else Get(cache, f.dst) == Some(to)
    requires p == Switch.Process(cache, n, port, chain.content[VIRTIO_HDR_SIZE..])
    ensures p.Processed? && p.targets == [to]
    ensures d == Drain(waiting + [p.pkt] + more, avail) && |d.delivered| > |waiting| ==>
              && |d.filled| > |waiting| && |d.filled[|waiting|].bytes| >= VIRTIO_HDR_SIZE
              && d.filled[|waiting|].bytes[VIRTIO_HDR_SIZE..] == chain.content[VIRTIO_HDR_SIZE..]
  {
    hide Drain, Returns, FrameBytes;
    ExtractThenPrint(chain.content[VIRTIO_HDR_SIZE..]);
    var all := waiting + [p.pkt] + more;
    DrainConserves(all, avail);
    DrainFills(all, avail, |waiting|);
    if d == Drain(all, avail) && |d.delivered| > |waiting| {
      assert (d.delivered + d.lost + d.pending)[|waiting|] == d.delivered[|waiting|];
      assert all[|waiting|] == p.pkt;
      BehindTheHeader(d.filled[|waiting|], avail[|waiting|].head, p.pkt);
    }
  }
}
