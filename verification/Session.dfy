/**
 A vhost-user session: `parse_msg` of oathgate-vhost/src/device.rs and the queue setters of
 oathgate-vhost/src/queue.rs. An error or a panic ends the device thread.
 */
module Session {
  import opened Bytes
  import opened Vhost

  /** The poll tokens of the session's stream and of the waker; a kick's token is its descriptor. */
  const TOKEN_STRM := 0
  const TOKEN_WAKE := 1

  const GET_FEATURES := 1
  const SET_FEATURES := 2
  const SET_OWNER := 3
  const SET_MEM_TABLE := 5
  const SET_VRING_NUM := 8
  const SET_VRING_ADDR := 9
  const SET_VRING_BASE := 10
  const GET_VRING_BASE := 11
  const SET_VRING_KICK := 12
  const SET_VRING_CALL := 13
  const SET_VRING_ERR := 14
  const GET_PROTOCOL_FEATURES := 15
  const SET_PROTOCOL_FEATURES := 16
  const GET_QUEUE_NUM := 17
  const SET_VRING_ENABLE := 18
  const SET_BACKEND_REQ_FD := 21
  const GET_MAX_MEM_SLOTS := 36
  const ADD_MEM_REG := 37
  const SET_STATUS := 39
  const GET_STATUS := 40

  type Fd = int

  /** Ancillary data of a message: passed descriptors, or something else. */
  datatype Control = Rights(fds: seq<Fd>) | OtherControl

  datatype Message = Message(ty: u32, flags: u32, payload: Option<seq<u8>>, controls: seq<Control>)

  datatype RingAddrs = RingAddrs(desc: u64, avail: u64, used: u64)

  /** A virtqueue; `size` is the size last asked for, `memory` the table last installed. */
  datatype Queue = Queue(
    enabled: bool, ready: bool, size: u16, rings: Option<RingAddrs>, nextAvail: u16,
    kick: Option<Fd>, call: Option<Fd>, err: Option<Fd>, memory: Option<seq<Region>>)

  datatype Kick = Rx(fd: Fd, queue: nat) | Tx(fd: Fd, queue: nat)

  /** `polled` are the kick descriptors registered with the poll. */
  datatype Device = Device(
    queues: seq<Queue>, mappings: seq<Mapping>, status: u64, channel: Option<Fd>,
    kickFds: map<Fd, Kick>, polled: set<Fd>)

  /** A message handled, with the reply it sent; or the end of the thread. */
  datatype Step = Next(dev: Device, reply: Option<seq<u8>>) | Ended

  const NEW_QUEUE := Queue(false, false, 1024, None, 0, None, None, None, None)

  function NewDevice(n: nat): (r: Device)
  {
    Device(seq(n, _ => NEW_QUEUE), [], 0, None, map[], {})
  }

  //
  // Reading messages
  //

  function U64Payload(m: Message): (r: Option<u64>)
  {
    if m.payload.Some? && |m.payload.value| >= 8 then Some(Le64At(m.payload.value, 0)) else None
  }

  /** Index and value of a vring state or descriptor. */
  function VringPayload(m: Message): (r: Option<(u32, u32)>)
  {
    if m.payload.Some? && |m.payload.value| >= 8 then Some((Le32At(m.payload.value, 0), Le32At(m.payload.value, 4)))
    else None
  }

  /** Index and the descriptor, used and available ring addresses, in the order they are sent. */
  function AddrPayload(m: Message): (r: Option<(u32, u64, u64, u64)>)
  {
    if m.payload.Some? && |m.payload.value| >= 40 then
      var p := m.payload.value;
      Some((Le32At(p, 0), Le64At(p, 8), Le64At(p, 16), Le64At(p, 24)))
    else None
  }

  function ExtractFd(m: Message): (r: Option<Fd>)
  {
    if m.controls != [] && m.controls[0].Rights? && m.controls[0].fds != [] then Some(m.controls[0].fds[0]) else None
  }

  predicate AckRequired(m: Message)
  {
    (m.flags / 8) % 2 == 1
  }

  //
  // Handling messages
  //

  function Update(d: Device, i: nat, q: Queue): (r: Step)
    requires i < |d.queues|
  {
    Next(d.(queues := d.queues[i := q]), None)
  }

  function MapRegions(mappings: seq<Mapping>, rs: seq<Region>): (r: seq<Mapping>)
  {
    if rs == [] then mappings
    else
      var last := rs[|rs| - 1];
      MapRegions(mappings, rs[..|rs| - 1]) + [MappingOf(last.user, last.guest, last.size)]
  }

  function WithMemory(queues: seq<Queue>, rs: seq<Region>): (r: seq<Queue>)
    ensures |r| == |queues| && forall i :: 0 <= i < |r| ==> r[i] == queues[i].(memory := Some(rs))
  {
    seq(|queues|, i requires 0 <= i < |queues| => queues[i].(memory := Some(rs)))
  }

  function SetMemTable(d: Device, m: Message, io: bool): (r: Step)
  {
    if m.payload.None? then Ended
    else
      match DecodeRegions(m.payload.value)
      case Ok(rs) =>
        if m.controls == [] || !m.controls[0].Rights? || |m.controls[0].fds| != |rs| then Ended
        else if exists i :: 0 <= i < |rs| && (rs[i].user == 0 || rs[i].size == 0) then Ended
        else if rs == [] || !io then Ended
        else
          Next(d.(mappings := MapRegions(d.mappings, rs), queues := WithMemory(d.queues, rs)),
               if AckRequired(m) then Some([]) else None)
      case _ => Ended
  }

  function SetVringAddr(d: Device, m: Message): (r: Step)
  {
    if d.mappings == [] || AddrPayload(m).None? then Ended
    else
      var (i, desc, used, avail) := AddrPayload(m).value;
      var desc', avail' := Translate(d.mappings, desc), Translate(d.mappings, avail);
      var used' := Translate(d.mappings, used);
      if desc'.None? || avail'.None? || used'.None? || i >= |d.queues| then Ended
      else Update(d, i, d.queues[i].(rings := Some(RingAddrs(desc'.value, avail'.value, used'.value))))
  }

  /** Registering a descriptor that is registered already fails. */
  function SetVringKick(d: Device, m: Message, io: bool): (r: Step)
  {
    if U64Payload(m).None? || ExtractFd(m).None? then Ended
    else
      var i, fd := U64Payload(m).value, ExtractFd(m).value;
      if i >= |d.queues| || !io || fd in d.polled then Ended
      else
        var q := d.queues[i].(kick := Some(fd), ready := true);
        Next(d.(queues := d.queues[i := q], kickFds := d.kickFds[fd := if i % 2 == 0 then Rx(fd, i) else Tx(fd, i)],
                polled := d.polled + {fd}), None)
  }

  /** Deregistering a descriptor that is not registered fails. */
  function GetVringBase(d: Device, m: Message, io: bool): (r: Step)
  {
    if VringPayload(m).None? then Ended
    else
      var i := VringPayload(m).value.0;
      if i >= |d.queues| || !io || (d.queues[i].kick.Some? && d.queues[i].kick.value !in d.polled) then Ended
      else
        var q := d.queues[i];
        Next(d.(queues := d.queues[i := q.(ready := false, kick := None, call := None, err := None)],
                polled := if q.kick.Some? then d.polled - {q.kick.value} else d.polled),
             Some(EncodeDescriptor(VRingDescriptor(i, q.nextAvail))))
  }

  /** The messages that set one field of one queue. */
  function SetQueue(d: Device, m: Message): (r: Step)
  {
    if m.ty == SET_VRING_CALL || m.ty == SET_VRING_ERR then
      if U64Payload(m).None? || ExtractFd(m).None? || U64Payload(m).value >= |d.queues| then Ended
      else
        var i, fd := U64Payload(m).value, ExtractFd(m).value;
        Update(d, i, if m.ty == SET_VRING_CALL then d.queues[i].(call := Some(fd)) else d.queues[i].(err := Some(fd)))
    else if VringPayload(m).None? || VringPayload(m).value.0 >= |d.queues| then Ended
    else
      var (i, n) := VringPayload(m).value;
      Update(d, i,
             if m.ty == SET_VRING_ENABLE then d.queues[i].(enabled := true)
             else if m.ty == SET_VRING_NUM then d.queues[i].(size := n % 0x1_0000)
             else d.queues[i].(nextAvail := n % 0x1_0000))
  }

  /** The messages about the device itself. */
  function SetDevice(d: Device, m: Message, io: bool): (r: Step)
  {
    if m.ty == SET_BACKEND_REQ_FD then
      if ExtractFd(m).None? || (AckRequired(m) && !io) then Ended
      else Next(d.(channel := ExtractFd(m)), if AckRequired(m) then Some(ToLe(0, 8)) else None)
    else if m.ty == SET_STATUS then
      if U64Payload(m).None? then Ended else Next(d.(status := U64Payload(m).value), None)
    else if m.ty == SET_FEATURES || m.ty == SET_PROTOCOL_FEATURES then
      if U64Payload(m).None? then Ended else Next(d, None)
    else if m.ty == ADD_MEM_REG then if AddrPayload(m).None? then Ended else Next(d, None)
    else if m.ty == SET_OWNER then if d.channel.Some? && !io then Ended else Next(d, None)
    else if m.ty == GET_STATUS then if io then Next(d, Some(ToLe(d.status, 8))) else Ended
    else if m.ty == GET_FEATURES then if io then Next(d, Some(ToLe(0x1_4001_0020, 8))) else Ended
    else if m.ty == GET_PROTOCOL_FEATURES then if io then Next(d, Some(ToLe(0x9_2220, 8))) else Ended
    else if m.ty == GET_QUEUE_NUM then if io then Next(d, Some(ToLe(|d.queues| / 2, 8))) else Ended
    else if m.ty == GET_MAX_MEM_SLOTS then if io then Next(d, Some(ToLe(2, 8))) else Ended
    else Next(d, None)
  }

  /** Messages that set one field of one queue. */
  predicate IsQueueSetter(ty: u32)
  {
    ty == SET_VRING_CALL || ty == SET_VRING_ERR || ty == SET_VRING_ENABLE || ty == SET_VRING_NUM || ty == SET_VRING_BASE
  }

  /** `parse_msg`; `io` says whether the system calls of the branch succeed. */
  function Handle(d: Device, m: Message, io: bool): (r: Step)
  {
    if m.ty == SET_MEM_TABLE then SetMemTable(d, m, io)
    else if m.ty == SET_VRING_ADDR then SetVringAddr(d, m)
    else if m.ty == SET_VRING_KICK then SetVringKick(d, m, io)
    else if m.ty == GET_VRING_BASE then GetVringBase(d, m, io)
    else if IsQueueSetter(m.ty) then SetQueue(d, m)
    else SetDevice(d, m, io)
  }

  /** A session: messages in order, until one of them ends the thread. */
  function Run(d: Device, msgs: seq<(Message, bool)>): (r: Option<Device>)
  {
    if msgs == [] then Some(d)
    else
      match Run(d, msgs[..|msgs| - 1])
      case None => None
      case Some(d') =>
        var last := msgs[|msgs| - 1];
        (match Handle(d', last.0, last.1)
         case Next(d'', _) => Some(d'')
         case Ended => None)
  }

  //
  // What every session keeps
  //

  ghost predicate ReadyIffKick(d: Device)
  {
    forall i :: 0 <= i < |d.queues| ==> (d.queues[i].ready <==> d.queues[i].kick.Some?)
  }

  /** Every registered kick names an existing queue: receive queues are even, transmit queues odd. */
  ghost predicate KicksNameQueues(d: Device)
  {
    forall fd :: fd in d.kickFds ==>
      d.kickFds[fd].fd == fd && d.kickFds[fd].queue < |d.queues|
      && (d.kickFds[fd].Rx? <==> d.kickFds[fd].queue % 2 == 0)
  }

  /** Ring addresses are set only while memory is installed on every queue, and mappings exist. */
  ghost predicate RingsNeedMemory(d: Device)
  {
    && (d.mappings != [] ==> forall j :: 0 <= j < |d.queues| ==> d.queues[j].memory.Some?)
    && (forall i :: 0 <= i < |d.queues| && d.queues[i].rings.Some? ==> d.mappings != [])
  }

  /** Every ring address is still what translation gives for some host address. */
  ghost predicate RingsAreTranslated(d: Device)
  {
    forall i :: 0 <= i < |d.queues| && d.queues[i].rings.Some? ==> Translated(d.mappings, d.queues[i].rings.value)
  }

  ghost predicate Translated(ms: seq<Mapping>, r: RingAddrs)
  {
    exists desc: u64, avail: u64, used: u64 ::
      Translate(ms, desc) == Some(r.desc) && Translate(ms, avail) == Some(r.avail)
      && Translate(ms, used) == Some(r.used)
  }

  /** A queue's kick is polled and dispatches to that queue; what is polled dispatches to some queue. */
  ghost predicate KicksArePolled(d: Device)
  {
    && (forall i :: 0 <= i < |d.queues| && d.queues[i].kick.Some? ==> KickReaches(d, i))
    && d.polled <= d.kickFds.Keys
  }

  predicate KickReaches(d: Device, i: nat)
    requires i < |d.queues| && d.queues[i].kick.Some?
  {
    var fd := d.queues[i].kick.value;
    fd in d.polled && fd in d.kickFds && d.kickFds[fd].queue == i
  }

  ghost predicate Inv(d: Device)
  {
    ReadyIffKick(d) && KicksNameQueues(d) && RingsNeedMemory(d) && RingsAreTranslated(d) && KicksArePolled(d)
  }

  lemma {:induction false} MappingsGrow(mappings: seq<Mapping>, rs: seq<Region>)
    ensures mappings <= MapRegions(mappings, rs) && |MapRegions(mappings, rs)| == |mappings| + |rs|
  {
    if rs != [] {
      MappingsGrow(mappings, rs[..|rs| - 1]);
    }
  }

  lemma StaysTranslated(ms: seq<Mapping>, more: seq<Mapping>, r: RingAddrs)
    requires ms <= more && Translated(ms, r)
    ensures Translated(more, r)
  {
    var desc: u64, avail: u64, used: u64 :|
      Translate(ms, desc) == Some(r.desc) && Translate(ms, avail) == Some(r.avail)
      && Translate(ms, used) == Some(r.used);
    assert more == ms + more[|ms|..];
    OlderTableWins(ms, more[|ms|..], desc);
    OlderTableWins(ms, more[|ms|..], avail);
    OlderTableWins(ms, more[|ms|..], used);
  }

  lemma MemTableKeeps(d: Device, m: Message, io: bool)
    requires Inv(d) && SetMemTable(d, m, io).Next?
    ensures Inv(SetMemTable(d, m, io).dev)
  {
    var rs := DecodeRegions(m.payload.value).value;
    MappingsGrow(d.mappings, rs);
    var d' := SetMemTable(d, m, io).dev;
    KicksKeep(d, d');
    forall i | 0 <= i < |d'.queues| && d'.queues[i].rings.Some?
      ensures Translated(d'.mappings, d'.queues[i].rings.value)
    {
      StaysTranslated(d.mappings, d'.mappings, d.queues[i].rings.value);
    }
  }

  lemma AddrKeeps(d: Device, m: Message)
    requires Inv(d) && SetVringAddr(d, m).Next?
    ensures Inv(SetVringAddr(d, m).dev)
  {
    KicksKeep(d, SetVringAddr(d, m).dev);
  }

  /** Messages that leave mappings, ring addresses and memory alone. */
  lemma FieldsKeep(d: Device, d': Device)
    requires Inv(d) && d'.mappings == d.mappings && |d'.queues| == |d.queues|
    requires forall i :: 0 <= i < |d.queues| ==>
               d'.queues[i].rings == d.queues[i].rings && d'.queues[i].memory == d.queues[i].memory
    ensures RingsNeedMemory(d') && RingsAreTranslated(d')
  {
  }

  lemma KickKeeps(d: Device, m: Message, io: bool)
    requires Inv(d) && SetVringKick(d, m, io).Next?
    ensures Inv(SetVringKick(d, m, io).dev)
  {
    var d' := SetVringKick(d, m, io).dev;
    FieldsKeep(d, d');
    forall i | 0 <= i < |d'.queues| && d'.queues[i].kick.Some? ensures KickReaches(d', i) {
      if i != U64Payload(m).value {
        assert KickReaches(d, i);
      }
    }
  }

  lemma BaseKeeps(d: Device, m: Message, io: bool)
    requires Inv(d) && GetVringBase(d, m, io).Next?
    ensures Inv(GetVringBase(d, m, io).dev)
  {
    var d' := GetVringBase(d, m, io).dev;
    FieldsKeep(d, d');
    var s := VringPayload(m).value.0;
    forall i | 0 <= i < |d'.queues| && d'.queues[i].kick.Some? ensures KickReaches(d', i) {
      assert KickReaches(d, i);
      if d.queues[s].kick.Some? {
        assert KickReaches(d, s);
      }
    }
  }

  lemma QueueKeeps(d: Device, m: Message)
    requires Inv(d) && SetQueue(d, m).Next?
    ensures Inv(SetQueue(d, m).dev)
  {
    SetterEffect(d, m);
    hide SetQueue, RingsNeedMemory, RingsAreTranslated, KicksArePolled;
    FieldsKeep(d, SetQueue(d, m).dev);
    KicksKeep(d, SetQueue(d, m).dev);
  }

  /** What a message that sets one field of a queue leaves alone. */
  lemma SetterEffect(d: Device, m: Message)
    requires SetQueue(d, m).Next?
    ensures var d' := SetQueue(d, m).dev;
            && d'.mappings == d.mappings && d'.kickFds == d.kickFds && d'.polled == d.polled
            && |d'.queues| == |d.queues|
            && forall i :: 0 <= i < |d.queues| ==>
                 d'.queues[i].(size := 0, nextAvail := 0, call := None, err := None, enabled := false)
                 == d.queues[i].(size := 0, nextAvail := 0, call := None, err := None, enabled := false)
  {
    hide U64Payload, ExtractFd, VringPayload;
  }

  /** Messages that leave kicks and the poll alone. */
  lemma KicksKeep(d: Device, d': Device)
    requires KicksArePolled(d) && d'.kickFds == d.kickFds && d'.polled == d.polled && |d'.queues| == |d.queues|
    requires forall i :: 0 <= i < |d.queues| ==> d'.queues[i].kick == d.queues[i].kick
    ensures KicksArePolled(d')
  {
    forall i | 0 <= i < |d'.queues| && d'.queues[i].kick.Some? ensures KickReaches(d', i) {
      assert KickReaches(d, i);
    }
  }

  lemma DeviceKeeps(d: Device, m: Message, io: bool)
    requires Inv(d) && SetDevice(d, m, io).Next?
    ensures Inv(SetDevice(d, m, io).dev)
  {
    var d' := SetDevice(d, m, io).dev;
    assert d'.queues == d.queues && d'.mappings == d.mappings && d'.kickFds == d.kickFds && d'.polled == d.polled;
    KicksKeep(d, d');
  }

  lemma HandleKeeps(d: Device, m: Message, io: bool)
    requires Inv(d) && Handle(d, m, io).Next?
    ensures Inv(Handle(d, m, io).dev)
  {
    hide Inv, SetMemTable, SetVringAddr, SetVringKick, GetVringBase, SetQueue, SetDevice;
    if m.ty == SET_MEM_TABLE {
      MemTableKeeps(d, m, io);
    } else if m.ty == SET_VRING_ADDR {
      AddrKeeps(d, m);
    } else if m.ty == SET_VRING_KICK {
      KickKeeps(d, m, io);
    } else if m.ty == GET_VRING_BASE {
      BaseKeeps(d, m, io);
    } else if IsQueueSetter(m.ty) {
      QueueKeeps(d, m);
    } else {
      DeviceKeeps(d, m, io);
    }
  }

  lemma QueueCountStays(d: Device, m: Message, io: bool)
    requires Handle(d, m, io).Next?
    ensures |Handle(d, m, io).dev.queues| == |d.queues|
  {
  }

  /**
   In every state of a session that has not ended: a queue is ready exactly when it holds a
   kick descriptor; every registered kick names an existing queue of the right parity; and
   no queue has ring addresses unless memory is installed on all queues, those addresses
   being translations that later memory tables have not changed.
   */
  lemma {:induction false} EverySessionKeeps(n: nat, msgs: seq<(Message, bool)>)
    requires Run(NewDevice(n), msgs).Some?
    ensures Inv(Run(NewDevice(n), msgs).value) && |Run(NewDevice(n), msgs).value.queues| == n
  {
    hide Handle;
    if msgs != [] {
      EverySessionKeeps(n, msgs[..|msgs| - 1]);
      var d := Run(NewDevice(n), msgs[..|msgs| - 1]).value;
      HandleKeeps(d, msgs[|msgs| - 1].0, msgs[|msgs| - 1].1);
      QueueCountStays(d, msgs[|msgs| - 1].0, msgs[|msgs| - 1].1);
    }
  }

  //
  // Which descriptors still dispatch
  //

  /** The poll reports the descriptor, and `run` dispatches its event; the first two tokens are not kicks. */
  function Dispatch(d: Device, fd: Fd): (r: Option<Kick>)
  {
    if fd in d.polled then InBatch(d, fd) else None
  }

  /** What `run` does with an event it has been given already. */
  function InBatch(d: Device, fd: Fd): (r: Option<Kick>)
  {
    if fd == TOKEN_STRM || fd == TOKEN_WAKE then None else Get(d.kickFds, fd)
  }

  /** The message gives its queue a kick while the queue holds another. */
  predicate ReplacesKick(d: Device, m: Message)
  {
    m.ty == SET_VRING_KICK && U64Payload(m).Some? && U64Payload(m).value < |d.queues|
    && d.queues[U64Payload(m).value].kick.Some?
  }

  ghost predicate EverReplaced(n: nat, msgs: seq<(Message, bool)>)
  {
    exists k :: 0 <= k < |msgs| && ReplacedAt(n, msgs, k)
  }

  predicate ReplacedAt(n: nat, msgs: seq<(Message, bool)>, k: nat)
    requires k < |msgs|
  {
    Run(NewDevice(n), msgs[..k]).Some? && ReplacesKick(Run(NewDevice(n), msgs[..k]).value, msgs[k].0)
  }

  /** A polled descriptor that its queue no longer holds. */
  predicate Stray(d: Device, fd: Fd)
  {
    fd in d.polled && fd in d.kickFds && d.kickFds[fd].queue < |d.queues|
    && d.queues[d.kickFds[fd].queue].kick != Some(fd)
  }

  ghost predicate HasStray(d: Device)
  {
    exists fd :: fd in d.polled && Stray(d, fd)
  }

  lemma StrayAppears(d: Device, m: Message, io: bool)
    requires Inv(d) && ReplacesKick(d, m) && Handle(d, m, io).Next?
    ensures HasStray(Handle(d, m, io).dev)
  {
    var i := U64Payload(m).value;
    var fd := d.queues[i].kick.value;
    assert KickReaches(d, i);
    assert Stray(Handle(d, m, io).dev, fd);
  }

  /** Nothing about kicks and the poll differs. */
  predicate SameKicks(d: Device, d': Device)
  {
    && d'.kickFds == d.kickFds && d'.polled == d.polled && |d'.queues| == |d.queues|
    && forall i :: 0 <= i < |d.queues| ==> d'.queues[i].kick == d.queues[i].kick
  }

  lemma TableLeavesKicks(d: Device, m: Message, io: bool)
    requires SetMemTable(d, m, io).Next?
    ensures SameKicks(d, SetMemTable(d, m, io).dev)
  {
    hide DecodeRegions, MapRegions;
  }

  lemma AddrLeavesKicks(d: Device, m: Message)
    requires SetVringAddr(d, m).Next?
    ensures SameKicks(d, SetVringAddr(d, m).dev)
  {
    hide Translate;
  }

  lemma QueueLeavesKicks(d: Device, m: Message)
    requires SetQueue(d, m).Next?
    ensures SameKicks(d, SetQueue(d, m).dev)
  {
    hide U64Payload, ExtractFd, VringPayload;
  }

  lemma DeviceLeavesKicks(d: Device, m: Message, io: bool)
    requires SetDevice(d, m, io).Next?
    ensures SameKicks(d, SetDevice(d, m, io).dev)
  {
    hide U64Payload, ExtractFd, AddrPayload, ToLe;
  }

  lemma OthersLeaveKicks(d: Device, m: Message, io: bool)
    requires m.ty != SET_VRING_KICK && m.ty != GET_VRING_BASE && Handle(d, m, io).Next?
    ensures SameKicks(d, Handle(d, m, io).dev)
  {
    hide SetVringKick, GetVringBase, SetMemTable, SetVringAddr, SetQueue, SetDevice, SameKicks;
    if m.ty == SET_MEM_TABLE {
      TableLeavesKicks(d, m, io);
    } else if m.ty == SET_VRING_ADDR {
      AddrLeavesKicks(d, m);
    } else if IsQueueSetter(m.ty) {
      QueueLeavesKicks(d, m);
    } else {
      DeviceLeavesKicks(d, m, io);
    }
  }

  /** Stray descriptors stay stray: nothing takes them out of the poll. */
  lemma StrayStays(d: Device, m: Message, io: bool, fd: Fd)
    requires Inv(d) && Stray(d, fd) && Handle(d, m, io).Next?
    ensures Stray(Handle(d, m, io).dev, fd)
  {
    if m.ty == SET_VRING_KICK {
      assert Handle(d, m, io) == SetVringKick(d, m, io);
    } else if m.ty == GET_VRING_BASE {
      var i := VringPayload(m).value.0;
      if d.queues[i].kick.Some? {
        assert KickReaches(d, i);
      }
    } else {
      OthersLeaveKicks(d, m, io);
      hide Handle;
    }
  }

  lemma NoStrayAppears(d: Device, m: Message, io: bool, fd: Fd)
    requires Inv(d) && !ReplacesKick(d, m) && Handle(d, m, io).Next? && Stray(Handle(d, m, io).dev, fd)
    ensures Stray(d, fd)
  {
    if m.ty == SET_VRING_KICK {
      assert Handle(d, m, io) == SetVringKick(d, m, io);
    } else if m.ty == GET_VRING_BASE {
      var i := VringPayload(m).value.0;
      if d.queues[i].kick.Some? {
        assert KickReaches(d, i);
      }
    } else {
      OthersLeaveKicks(d, m, io);
      hide Handle;
    }
  }

  /**
   In every live session, every descriptor that the poll still watches is the kick that the
   queue it dispatches to holds (so that queue is ready), exactly when no queue was ever given
   a kick while it held another.
   */
  lemma {:induction false} KicksAreHeldIff(n: nat, msgs: seq<(Message, bool)>, d: Device)
    requires Run(NewDevice(n), msgs) == Some(d)
    ensures HasStray(d) <==> EverReplaced(n, msgs)
    ensures !HasStray(d) ==> forall fd :: fd in d.polled ==>
              fd in d.kickFds && d.kickFds[fd].queue < |d.queues| && d.queues[d.kickFds[fd].queue].kick == Some(fd)
              && d.queues[d.kickFds[fd].queue].ready
  {
    EverySessionKeeps(n, msgs);
    if msgs != [] {
      var k := |msgs| - 1;
      var (m, io) := msgs[k];
      var before := Run(NewDevice(n), msgs[..k]).value;
      EverySessionKeeps(n, msgs[..k]);
      KicksAreHeldIff(n, msgs[..k], before);
      EverReplacedNext(n, msgs);
      hide Handle, Stray, ReplacesKick;
      if ReplacesKick(before, m) {
        StrayAppears(before, m, io);
      } else {
        if HasStray(before) {
          var fd :| fd in before.polled && Stray(before, fd);
          StrayStays(before, m, io, fd);
          StrayIsPolled(d, fd);
        }
        if HasStray(d) {
          var fd :| fd in d.polled && Stray(d, fd);
          NoStrayAppears(before, m, io, fd);
          StrayIsPolled(before, fd);
        }
      }
    }
    HeldUnlessStray(d);
  }

  lemma StrayIsPolled(d: Device, fd: Fd)
    requires Stray(d, fd)
    ensures fd in d.polled
  {
  }

  lemma HeldUnlessStray(d: Device)
    requires Inv(d)
    ensures !HasStray(d) ==> forall fd :: fd in d.polled ==>
              fd in d.kickFds && d.kickFds[fd].queue < |d.queues| && d.queues[d.kickFds[fd].queue].kick == Some(fd)
              && d.queues[d.kickFds[fd].queue].ready
  {
    if !HasStray(d) {
      forall fd | fd in d.polled
        ensures d.kickFds[fd].queue < |d.queues| && d.queues[d.kickFds[fd].queue].kick == Some(fd)
      {
        assert !Stray(d, fd);
      }
    }
  }

  lemma EverReplacedNext(n: nat, msgs: seq<(Message, bool)>)
    requires msgs != []
    ensures EverReplaced(n, msgs) <==> EverReplaced(n, msgs[..|msgs| - 1]) || ReplacedAt(n, msgs, |msgs| - 1)
  {
    var k := |msgs| - 1;
    var front := msgs[..k];
    forall j | 0 <= j < k ensures ReplacedAt(n, front, j) == ReplacedAt(n, msgs, j) {
      assert front[..j] == msgs[..j];
    }
    if EverReplaced(n, msgs) {
      var j :| 0 <= j < |msgs| && ReplacedAt(n, msgs, j);
      if j < k {
        assert ReplacedAt(n, front, j);
      }
    }
    if EverReplaced(n, front) {
      var j :| 0 <= j < |front| && ReplacedAt(n, front, j);
      assert ReplacedAt(n, msgs, j);
    }
  }

  /**
   Stopping a queue: its own kick dispatches no more, although its entry stays behind and an
   event the loop has already been given still reaches the queue; what else dispatches to the
   queue are exactly the descriptors that were stray there before.
   */
  lemma StoppedQueueIff(d: Device, m: Message, io: bool, fd: Fd)
    requires Inv(d) && m.ty == GET_VRING_BASE && Handle(d, m, io).Next?
    ensures var i := VringPayload(m).value.0;
            var s := Handle(d, m, io).dev;
            && i < |s.queues| && !s.queues[i].ready && s.queues[i].kick == None
            && InBatch(s, fd) == InBatch(d, fd)
            && (d.queues[i].kick == Some(fd) ==> Dispatch(s, fd) == None)
            && (Dispatch(s, fd).Some? && Dispatch(s, fd).value.queue == i <==>
                  Dispatch(d, fd).Some? && Dispatch(d, fd).value.queue == i && Stray(d, fd))
  {
    var i := VringPayload(m).value.0;
    if d.queues[i].kick.Some? {
      assert KickReaches(d, i);
    }
  }

  /**
   A second memory table replaces the queues' memory but only extends the translation: an
   address of the new table translates as that table says exactly when the old tables do
   not translate it, or happen to agree.
   */
  lemma SecondTableIff(d: Device, m: Message, vmm: u64)
    requires m.ty == SET_MEM_TABLE && Handle(d, m, true).Next?
    ensures var d' := Handle(d, m, true).dev;
            var own := MapRegions([], DecodeRegions(m.payload.value).value);
            && Handle(d, m, true).reply == (if (m.flags / 8) % 2 == 1 then Some([]) else None)
            && (forall i :: 0 <= i < |d'.queues| ==> d'.queues[i].memory == Some(DecodeRegions(m.payload.value).value))
            && (Translate(d'.mappings, vmm) == Translate(own, vmm) <==>
                  Translate(d.mappings, vmm) == None || Translate(d.mappings, vmm) == Translate(own, vmm))
  {
    var rs := DecodeRegions(m.payload.value).value;
    MapRegionsAppends(d.mappings, rs);
    OlderTableWins(d.mappings, MapRegions([], rs), vmm);
  }

  lemma {:induction false} MapRegionsAppends(mappings: seq<Mapping>, rs: seq<Region>)
    ensures MapRegions(mappings, rs) == mappings + MapRegions([], rs)
  {
    if rs != [] {
      MapRegionsAppends(mappings, rs[..|rs| - 1]);
    }
  }

  //
  // Ring addresses
  //

  /** Regions that do not wrap, with disjoint closed host ranges. */
  ghost predicate TidyTable(rs: seq<Region>)
  {
    && (forall i :: 0 <= i < |rs| ==> Fits(rs[i]))
    && (forall i, j :: 0 <= i < j < |rs| ==>
          rs[i].user + rs[i].size < rs[j].user || rs[j].user + rs[j].size < rs[i].user)
  }

  predicate Fits(r: Region)
  {
    r.user + r.size < 0x1_0000_0000_0000_0000 && r.guest + r.size < 0x1_0000_0000_0000_0000
  }

  lemma {:induction false} MappingAt(rs: seq<Region>, k: nat)
    requires k < |rs|
    ensures |MapRegions([], rs)| == |rs| && MapRegions([], rs)[k] == MappingOf(rs[k].user, rs[k].guest, rs[k].size)
  {
    MappingsGrow([], rs);
    if k < |rs| - 1 {
      MappingAt(rs[..|rs| - 1], k);
      MappingsGrow([], rs[..|rs| - 1]);
    }
  }

  /** An offset into a region of a tidy table translates to the same offset into its guest range. */
  lemma RegionTranslates(rs: seq<Region>, j: nat, off: u64)
    requires TidyTable(rs) && j < |rs| && off < rs[j].size
    ensures rs[j].user + off < 0x1_0000_0000_0000_0000 && rs[j].guest + off < 0x1_0000_0000_0000_0000
    ensures Translate(MapRegions([], rs), rs[j].user + off) == Some(rs[j].guest + off)
  {
    hide MapRegions, Translate;
    var ms := MapRegions([], rs);
    assert Fits(rs[j]);
    forall k | 0 <= k < |rs|
      ensures |ms| == |rs| && ms[k] == Mapping(rs[k].user, rs[k].user + rs[k].size, rs[k].guest, rs[k].size)
    {
      MappingAt(rs, k);
      assert Fits(rs[k]);
    }
    MappingAt(rs, j);
    TranslateMeetsRegion(ms, rs[j].user + off, j);
  }

  /** The payload of SET_VRING_ADDR in the vhost-user protocol: index, flags, descriptor, used, available, log. */
  function EncodeAddr(i: u32, flags: u32, desc: u64, used: u64, avail: u64, log: u64): (r: seq<u8>)
    ensures |r| == 40
  {
    ToLe(i, 4) + ToLe(flags, 4) + ToLe(desc, 8) + ToLe(used, 8) + ToLe(avail, 8) + ToLe(log, 8)
  }

  lemma AddrRoundTrip(m: Message, i: u32, flags: u32, desc: u64, used: u64, avail: u64, log: u64)
    requires m.payload == Some(EncodeAddr(i, flags, desc, used, avail, log))
    ensures AddrPayload(m) == Some((i, desc, used, avail))
  {
    var p := m.payload.value;
    AddrFields(p, i, flags, desc, used, avail, log);
    Le32Written(p, 0, i);
    Le64Written(p, 8, desc);
    Le64Written(p, 16, used);
    Le64Written(p, 24, avail);
  }

  lemma AddrFields(p: seq<u8>, i: u32, flags: u32, desc: u64, used: u64, avail: u64, log: u64)
    requires p == EncodeAddr(i, flags, desc, used, avail, log)
    ensures p[0..4] == ToLe(i, 4) && p[8..16] == ToLe(desc, 8) && p[16..24] == ToLe(used, 8)
    ensures p[24..32] == ToLe(avail, 8)
  {
    hide ToLe;
  }

  /** A place in guest memory, as the table and the offset into one of its regions. */
  datatype Place = Place(region: nat, offset: u64)

  predicate InTable(rs: seq<Region>, a: Place)
  {
    a.region < |rs| && a.offset < rs[a.region].size && Fits(rs[a.region])
  }

  function HostOf(rs: seq<Region>, a: Place): (r: u64)
    requires InTable(rs, a)
  {
    rs[a.region].user + a.offset
  }

  function PlaceOf(rs: seq<Region>, a: Place): (r: u64)
    requires InTable(rs, a)
  {
    rs[a.region].guest + a.offset
  }

  /**
   From the memory table to the rings: after a first tidy table, ring addresses given inside
   its regions are accepted for every existing queue, and each ring ends up at the guest
   address of the place the front end named for it.
   */
  lemma RingsLandInGuestMemory(d: Device, table: Message, rs: seq<Region>, m: Message, i: u32, flags: u32, log: u64,
                               desc: Place, used: Place, avail: Place)
    requires d.mappings == [] && i < |d.queues|
    requires table.ty == SET_MEM_TABLE && Handle(d, table, true).Next?
    requires DecodeRegions(table.payload.value) == Ok(rs) && TidyTable(rs)
    requires InTable(rs, desc) && InTable(rs, used) && InTable(rs, avail)
    requires m.ty == SET_VRING_ADDR
    requires m.payload == Some(EncodeAddr(i, flags, HostOf(rs, desc), HostOf(rs, used), HostOf(rs, avail), log))
    ensures var s := Handle(Handle(d, table, true).dev, m, true);
            && s.Next? && |s.dev.queues| == |d.queues|
            && s.dev.queues[i].memory == Some(rs)
            && s.dev.queues[i].rings == Some(RingAddrs(PlaceOf(rs, desc), PlaceOf(rs, avail), PlaceOf(rs, used)))
  {
    hide Handle, Translate, MapRegions, DecodeRegions, EncodeAddr, AddrPayload, TidyTable;
    var d' := Handle(d, table, true).dev;
    AddrRoundTrip(m, i, flags, HostOf(rs, desc), HostOf(rs, used), HostOf(rs, avail), log);
    MappingsGrow([], rs);
    InstalledTable(d, table, rs);
    RegionTranslates(rs, desc.region, desc.offset);
    RegionTranslates(rs, used.region, used.offset);
    RegionTranslates(rs, avail.region, avail.offset);
    AddressesAreSet(d', m, i, HostOf(rs, desc), HostOf(rs, used), HostOf(rs, avail));
  }

  lemma InstalledTable(d: Device, m: Message, rs: seq<Region>)
    requires d.mappings == [] && m.ty == SET_MEM_TABLE && Handle(d, m, true).Next?
    requires DecodeRegions(m.payload.value) == Ok(rs)
    ensures var d' := Handle(d, m, true).dev;
            rs != [] && d'.mappings == MapRegions([], rs) && d'.queues == WithMemory(d.queues, rs)
  {
    hide DecodeRegions, MapRegions, WithMemory;
  }

  lemma AddressesAreSet(d: Device, m: Message, i: u32, desc: u64, used: u64, avail: u64)
    requires m.ty == SET_VRING_ADDR && AddrPayload(m) == Some((i, desc, used, avail)) && i < |d.queues|
    requires d.mappings != []
    requires Translate(d.mappings, desc).Some? && Translate(d.mappings, used).Some?
    requires Translate(d.mappings, avail).Some?
    ensures var s := Handle(d, m, true);
            && s.Next? && |s.dev.queues| == |d.queues| && s.dev.queues[i].memory == d.queues[i].memory
            && s.dev.queues[i].rings
               == Some(RingAddrs(Translate(d.mappings, desc).value, Translate(d.mappings, avail).value,
                                 Translate(d.mappings, used).value))
  {
    hide Translate, AddrPayload;
  }

  //
  // What each message sets, and what is replied
  //

  /** A new device: no mappings, status 0, and queues of size 1024, neither enabled nor ready, that hold nothing. */
  lemma NewDeviceIsStopped(n: nat)
    ensures var d := NewDevice(n);
            && d.mappings == [] && d.status == 0 && d.channel == None && d.kickFds == map[] && d.polled == {}
            && |d.queues| == n
            && forall i :: 0 <= i < n ==>
                 var q := d.queues[i];
                 && !q.enabled && !q.ready && q.size == 1024 && q.nextAvail == 0 && q.rings == None && q.memory == None
                 && q.kick == None && q.call == None && q.err == None
  {
  }

  /**
   What the poll reports goes to the queue the descriptor was filed for, unless it is one of the two tokens
   of the stream and the waker; and so does a kick to the queue that holds it, in every session.
   */
  lemma KicksDispatch(d: Device, fd: Fd)
    requires Inv(d)
    ensures Dispatch(d, fd).Some? <==> fd in d.polled && fd !in {0, 1}
    ensures forall i :: 0 <= i < |d.queues| && d.queues[i].kick == Some(fd) && fd !in {0, 1} ==>
              Dispatch(d, fd).Some? && Dispatch(d, fd).value.queue == i && (Dispatch(d, fd).value.Rx? <==> i % 2 == 0)
  {
    hide ReadyIffKick, RingsNeedMemory, RingsAreTranslated;
    forall i | 0 <= i < |d.queues| && d.queues[i].kick == Some(fd) ensures fd in d.polled && d.kickFds[fd].queue == i {
      assert KickReaches(d, i);
    }
  }

  /** SET_VRING_CALL (13) and SET_VRING_ERR (14) set that descriptor of the queue they name, and nothing else. */
  lemma DescriptorIsSet(d: Device, m: Message, io: bool, i: u64, fd: Fd)
    requires m.ty in {13, 14} && m.payload.Some? && |m.payload.value| >= 8 && i == Le64At(m.payload.value, 0)
    requires m.controls != [] && m.controls[0].Rights? && m.controls[0].fds != [] && fd == m.controls[0].fds[0]
    ensures Handle(d, m, io)
            == if i >= |d.queues| then Ended
               else if m.ty == 13 then Next(d.(queues := d.queues[i := d.queues[i].(call := Some(fd))]), None)
               else Next(d.(queues := d.queues[i := d.queues[i].(err := Some(fd))]), None)
  {
    hide Le64At;
  }

  /** SET_VRING_NUM (8), SET_VRING_BASE (10) and SET_VRING_ENABLE (18), whatever state it asks for. */
  lemma StateIsSet(d: Device, m: Message, io: bool, i: u32, n: u32)
    requires m.ty in {8, 10, 18} && m.payload.Some? && |m.payload.value| >= 8
    requires i == Le32At(m.payload.value, 0) && n == Le32At(m.payload.value, 4)
    ensures Handle(d, m, io)
            == if i >= |d.queues| then Ended
               else if m.ty == 8 then Next(d.(queues := d.queues[i := d.queues[i].(size := n % 0x1_0000)]), None)
               else if m.ty == 10 then Next(d.(queues := d.queues[i := d.queues[i].(nextAvail := n % 0x1_0000)]), None)
               else Next(d.(queues := d.queues[i := d.queues[i].(enabled := true)]), None)
  {
    hide Le32At;
  }

  /** Without the payload or the descriptor they carry, those messages end the thread. */
  lemma SettersNeedTheirPayload(d: Device, m: Message, io: bool)
    requires m.ty in {8, 10, 13, 14, 18}
    requires || m.payload.None? || |m.payload.value| < 8
             || (m.ty in {13, 14} && (m.controls == [] || !m.controls[0].Rights? || m.controls[0].fds == []))
    ensures Handle(d, m, io) == Ended
  {
  }

  /**
   SET_MEM_TABLE (5) is accepted exactly with a decodable, non-empty table of placed, non-empty regions and
   one descriptor for each; it adds a mapping for each region and gives every queue the table.
   */
  lemma TableIsAcceptedIff(d: Device, m: Message, io: bool)
    requires m.ty == 5
    ensures Handle(d, m, io).Next? <==>
              && io && m.payload.Some? && DecodeRegions(m.payload.value).Ok?
              && var rs := DecodeRegions(m.payload.value).value;
                 && rs != [] && (forall i :: 0 <= i < |rs| ==> rs[i].user != 0 && rs[i].size != 0)
                 && m.controls != [] && m.controls[0].Rights? && |m.controls[0].fds| == |rs|
    ensures Handle(d, m, io).Next? ==>
              var rs := DecodeRegions(m.payload.value).value;
              var d' := Handle(d, m, io).dev;
              && d' == d.(mappings := d'.mappings, queues := d'.queues)
              && |d'.mappings| == |d.mappings| + |rs| && d'.mappings[..|d.mappings|] == d.mappings
              && |d'.queues| == |d.queues|
              && (forall i :: 0 <= i < |rs| ==>
                    d'.mappings[|d.mappings| + i] == MappingOf(rs[i].user, rs[i].guest, rs[i].size))
              && forall i :: 0 <= i < |d.queues| ==> d'.queues[i] == d.queues[i].(memory := Some(rs))
  {
    hide DecodeRegions, MappingOf, MapRegions;
    if Handle(d, m, io).Next? {
      var rs := DecodeRegions(m.payload.value).value;
      MappingsGrow(d.mappings, rs);
      MapRegionsAppends(d.mappings, rs);
      forall i | 0 <= i < |rs|
        ensures MapRegions(d.mappings, rs)[|d.mappings| + i] == MappingOf(rs[i].user, rs[i].guest, rs[i].size)
      {
        MappingAt(rs, i);
      }
    }
  }

  /** SET_VRING_ADDR (9) sets the three translated addresses of its queue, or ends the thread. */
  lemma RingsAreSet(d: Device, m: Message, io: bool, i: u32, desc: u64, used: u64, avail: u64)
    requires m.ty == 9 && m.payload.Some? && |m.payload.value| >= 40 && i == Le32At(m.payload.value, 0)
    requires desc == Le64At(m.payload.value, 8) && used == Le64At(m.payload.value, 16)
    requires avail == Le64At(m.payload.value, 24)
    ensures var desc', avail' := Translate(d.mappings, desc), Translate(d.mappings, avail);
            var used' := Translate(d.mappings, used);
            Handle(d, m, io)
            == if i < |d.queues| && desc'.Some? && avail'.Some? && used'.Some?
               then
                 var rings := RingAddrs(desc'.value, avail'.value, used'.value);
                 Next(d.(queues := d.queues[i := d.queues[i].(rings := Some(rings))]), None)
               else Ended
  {
    hide Le32At, Le64At;
  }

  /** SET_VRING_KICK (12) starts its queue and registers the descriptor, once: even queues receive, odd transmit. */
  lemma KickIsSet(d: Device, m: Message, io: bool, i: u64, fd: Fd)
    requires m.ty == 12 && m.payload.Some? && |m.payload.value| >= 8 && i == Le64At(m.payload.value, 0)
    requires m.controls != [] && m.controls[0].Rights? && m.controls[0].fds != [] && fd == m.controls[0].fds[0]
    ensures Handle(d, m, io)
            == if io && i < |d.queues| && fd !in d.polled
               then Next(d.(queues := d.queues[i := d.queues[i].(kick := Some(fd), ready := true)],
                            kickFds := d.kickFds[fd := if i % 2 == 0 then Rx(fd, i) else Tx(fd, i)],
                            polled := d.polled + {fd}), None)
               else Ended
  {
    hide Le64At;
  }

  /** GET_VRING_BASE (11) stops its queue, takes its three descriptors, and replies its index and zeros. */
  lemma BaseStops(d: Device, m: Message, io: bool, i: u32)
    requires Inv(d) && m.ty == 11 && m.payload.Some? && |m.payload.value| >= 8 && i == Le32At(m.payload.value, 0)
    ensures Handle(d, m, io).Next? <==> io && i < |d.queues|
    ensures Handle(d, m, io).Next? ==>
              var q := d.queues[i];
              && Handle(d, m, io).dev
                 == d.(queues := d.queues[i := q.(ready := false, kick := None, call := None, err := None)],
                       polled := if q.kick.Some? then d.polled - {q.kick.value} else d.polled)
              && Handle(d, m, io).reply == Some(ToLe(i, 4) + [0, 0, 0, 0])
  {
    hide Le32At, ToLe, ReadyIffKick, KicksNameQueues, RingsNeedMemory, RingsAreTranslated;
    assert Zeros(4) == [0, 0, 0, 0];
    if i < |d.queues| && d.queues[i].kick.Some? {
      assert KickReaches(d, i);
    }
  }

  /**
   The requests for features (1), protocol features (15), the number of queue pairs (17), memory slots (36)
   and the status (40) are answered with a 64-bit number and change nothing.
   */
  lemma RequestsAreAnswered(d: Device, m: Message)
    requires m.ty in {1, 15, 17, 36, 40}
    ensures Handle(d, m, true) == Next(d, Some(ToLe(Answer(d, m.ty), 8))) && Handle(d, m, false) == Ended
  {
    hide ToLe;
  }

  /** Bits 32, 30, 16 and 5 are Virtio 1, the protocol features, the link status and the MAC address. */
  function Answer(d: Device, ty: u32): (r: nat)
  {
    if ty == 1 then 0x1_0000_0000 + 0x4000_0000 + 0x1_0000 + 0x20
    else if ty == 15 then 0x20 + 0x200 + 0x2000 + 0x1_0000 + 0x8_0000
    else if ty == 17 then |d.queues| / 2
    else if ty == 36 then 2
    else d.status
  }

  /** The status that the last SET_STATUS (39) of a session set. */
  function LastStatus(msgs: seq<(Message, bool)>): (r: u64)
  {
    if msgs == [] then 0
    else
      var last := msgs[|msgs| - 1].0;
      if last.ty == 39 && last.payload.Some? && |last.payload.value| >= 8 then Le64At(last.payload.value, 0)
      else LastStatus(msgs[..|msgs| - 1])
  }

  /** In every live session the status is the one set last. */
  lemma {:induction false} StatusIsLastSet(n: nat, msgs: seq<(Message, bool)>)
    requires Run(NewDevice(n), msgs).Some?
    ensures Run(NewDevice(n), msgs).value.status == LastStatus(msgs)
  {
    if msgs != [] {
      hide Handle, LastStatus;
      var k := |msgs| - 1;
      StatusIsLastSet(n, msgs[..k]);
      StatusNext(Run(NewDevice(n), msgs[..k]).value, msgs, k);
    }
  }

  lemma StatusNext(d: Device, msgs: seq<(Message, bool)>, k: nat)
    requires |msgs| == k + 1 && Handle(d, msgs[k].0, msgs[k].1).Next? && d.status == LastStatus(msgs[..k])
    ensures Handle(d, msgs[k].0, msgs[k].1).dev.status == LastStatus(msgs)
  {
    hide DecodeRegions, Translate, AddrPayload, MapRegions, EncodeDescriptor, ToLe, Le64At;
  }

  /** Messages about the device that set neither status (39) nor back-end channel (21) leave it as it is. */
  lemma OthersChangeNothing(d: Device, m: Message, io: bool)
    requires m.ty !in {5, 8, 9, 10, 11, 12, 13, 14, 18, 21, 39} && Handle(d, m, io).Next?
    ensures Handle(d, m, io).dev == d
  {
  }

  /** SET_BACKEND_REQ_FD keeps the channel it is given, and a set bit 3 of the flags asks for a reply. */
  lemma ChannelIsKept(d: Device, m: Message, io: bool, fd: Fd)
    requires m.ty == 21
    requires m.controls != [] && m.controls[0].Rights? && m.controls[0].fds != [] && fd == m.controls[0].fds[0]
    ensures Handle(d, m, io)
            == if (m.flags / 8) % 2 == 0 then Next(d.(channel := Some(fd)), None)
               else if io then Next(d.(channel := Some(fd)), Some(ToLe(0, 8))) else Ended
  {
  }

  //
  // The device object
  //

  class VirtioDevice {
    var queues: seq<Queue>
    var mappings: seq<Mapping>
    var status: u64
    var channel: Option<Fd>
    var kickFds: map<Fd, Kick>
    var polled: set<Fd>

    function View(): (r: Device)
      reads this
    {
      Device(queues, mappings, status, channel, kickFds, polled)
    }

    constructor (n: nat)
      ensures View() == NewDevice(n)
    {
      queues := seq(n, _ => NEW_QUEUE);
      mappings, status, channel, kickFds, polled := [], 0, None, map[], {};
    }

    /** `parse_msg`; after the end of the thread the fields no longer matter. */
    method ParseMsg(m: Message, io: bool) returns (ended: bool, reply: Option<seq<u8>>)
      modifies this
      ensures ended <==> Handle(old(View()), m, io).Ended?
      ensures !ended ==> Next(View(), reply) == Handle(old(View()), m, io)
    {
      if m.ty == SET_MEM_TABLE {
        ended, reply := InstallMemory(m, io);
      } else if m.ty == SET_VRING_ADDR {
        ended := SetVringAddresses(m);
        reply := None;
      } else if m.ty == SET_VRING_KICK {
        ended := StartVring(m, io);
        reply := None;
      } else if m.ty == GET_VRING_BASE {
        ended, reply := StopVring(m, io);
      } else if IsQueueSetter(m.ty) {
        ended := SetQueueField(m);
        reply := None;
      } else {
        ended, reply := SetDeviceField(m, io);
      }
    }

    method SetQueueField(m: Message) returns (ended: bool)
      modifies this
      ensures ended <==> SetQueue(old(View()), m).Ended?
      ensures !ended ==> Next(View(), None) == SetQueue(old(View()), m)
    {
      if m.ty == SET_VRING_CALL || m.ty == SET_VRING_ERR {
        if U64Payload(m).None? || ExtractFd(m).None? || U64Payload(m).value >= |queues| {
          return true;
        }
        var i, fd := U64Payload(m).value, ExtractFd(m);
        var q := queues[i];
        queues := queues[i := if m.ty == SET_VRING_CALL then q.(call := fd) else q.(err := fd)];
        return false;
      }
      if VringPayload(m).None? || VringPayload(m).value.0 >= |queues| {
        return true;
      }
      var (i, n) := VringPayload(m).value;
      if m.ty == SET_VRING_ENABLE {
        queues := queues[i := queues[i].(enabled := true)];
      } else if m.ty == SET_VRING_NUM {
        queues := queues[i := queues[i].(size := n % 0x1_0000)];
      } else {
        queues := queues[i := queues[i].(nextAvail := n % 0x1_0000)];
      }
      ended := false;
    }

    /** The device's own fields, and the messages that only ask or only carry a payload. */
    method SetDeviceField(m: Message, io: bool) returns (ended: bool, reply: Option<seq<u8>>)
      modifies this`status, this`channel
      ensures ended <==> SetDevice(old(View()), m, io).Ended?
      ensures !ended ==> Next(View(), reply) == SetDevice(old(View()), m, io)
    {
      ended, reply := false, None;
      if m.ty == SET_BACKEND_REQ_FD {
        if ExtractFd(m).None? {
          return true, None;
        }
        channel := ExtractFd(m);
        if AckRequired(m) {
          ended, reply := !io, Some(ToLe(0, 8));
        }
      } else if m.ty == SET_STATUS {
        if U64Payload(m).None? {
          return true, None;
        }
        status := U64Payload(m).value;
      } else if m.ty == SET_FEATURES || m.ty == SET_PROTOCOL_FEATURES {
        ended := U64Payload(m).None?;
      } else if m.ty == ADD_MEM_REG {
        ended := AddrPayload(m).None?;
      } else if m.ty == SET_OWNER {
        ended := channel.Some? && !io;
      } else {
        if m.ty == GET_STATUS {
          reply := Some(ToLe(status, 8));
        } else if m.ty == GET_FEATURES {
          reply := Some(ToLe(0x1_4001_0020, 8));
        } else if m.ty == GET_PROTOCOL_FEATURES {
          reply := Some(ToLe(0x9_2220, 8));
        } else if m.ty == GET_QUEUE_NUM {
          reply := Some(ToLe(|queues| / 2, 8));
        } else if m.ty == GET_MAX_MEM_SLOTS {
          reply := Some(ToLe(2, 8));
        }
        ended := reply.Some? && !io;
      }
    }

    method InstallMemory(m: Message, io: bool) returns (ended: bool, reply: Option<seq<u8>>)
      modifies this
      ensures ended <==> SetMemTable(old(View()), m, io).Ended?
      ensures !ended ==> Next(View(), reply) == SetMemTable(old(View()), m, io)
    {
      ended, reply := true, None;
      if m.payload.None? {
        return;
      }
      var decoded := ParseRegions(m.payload.value);
      if !decoded.Ok? || m.controls == [] || !m.controls[0].Rights? || |m.controls[0].fds| != |decoded.value| {
        return;
      }
      var regions := decoded.value;
      var mapped := MapAll(regions);
      if !mapped || regions == [] || !io {
        return;
      }
      queues := WithMemory(queues, regions);
      ended := false;
      reply := if AckRequired(m) then Some([]) else None;
    }

    /** The loop over the regions: an empty or unplaced region panics. */
    method MapAll(regions: seq<Region>) returns (mapped: bool)
      modifies this`mappings
      ensures mapped <==> forall i :: 0 <= i < |regions| ==> regions[i].user != 0 && regions[i].size != 0
      ensures mapped ==> mappings == MapRegions(old(mappings), regions)
    {
      for i := 0 to |regions|
        invariant forall k :: 0 <= k < i ==> regions[k].user != 0 && regions[k].size != 0
        invariant mappings == MapRegions(old(mappings), regions[..i])
      {
        if regions[i].user == 0 || regions[i].size == 0 {
          return false;
        }
        assert regions[..i + 1][..i] == regions[..i];
        mappings := mappings + [MappingOf(regions[i].user, regions[i].guest, regions[i].size)];
      }
      assert regions[..|regions|] == regions;
      mapped := true;
    }

    method SetVringAddresses(m: Message) returns (ended: bool)
      modifies this
      ensures ended <==> SetVringAddr(old(View()), m).Ended?
      ensures !ended ==> Next(View(), None) == SetVringAddr(old(View()), m)
    {
      if mappings == [] || AddrPayload(m).None? {
        return true;
      }
      var (i, desc, used, avail) := AddrPayload(m).value;
      var desc', avail', used' := Translate(mappings, desc), Translate(mappings, avail), Translate(mappings, used);
      if desc'.None? || avail'.None? || used'.None? || i >= |queues| {
        return true;
      }
      queues := queues[i := queues[i].(rings := Some(RingAddrs(desc'.value, avail'.value, used'.value)))];
      ended := false;
    }

    method StartVring(m: Message, io: bool) returns (ended: bool)
      modifies this
      ensures ended <==> SetVringKick(old(View()), m, io).Ended?
      ensures !ended ==> Next(View(), None) == SetVringKick(old(View()), m, io)
    {
      hide U64Payload, ExtractFd;
      if U64Payload(m).None? || ExtractFd(m).None? || U64Payload(m).value >= |queues| {
        return true;
      }
      var i, fd := U64Payload(m).value, ExtractFd(m).value;
      queues := queues[i := queues[i].(kick := Some(fd))];
      queues := queues[i := queues[i].(ready := true)];
      if !io || fd in polled {
        return true;
      }
      polled := polled + {fd};
      kickFds := kickFds[fd := if i % 2 == 0 then Rx(fd, i) else Tx(fd, i)];
      ended := false;
    }

    method StopVring(m: Message, io: bool) returns (ended: bool, reply: Option<seq<u8>>)
      modifies this
      ensures ended <==> GetVringBase(old(View()), m, io).Ended?
      ensures !ended ==> Next(View(), reply) == GetVringBase(old(View()), m, io)
    {
      hide EncodeDescriptor;
      if VringPayload(m).None? || VringPayload(m).value.0 >= |queues| {
        return true, None;
      }
      var i := VringPayload(m).value.0;
      var kick := queues[i].kick;
      queues := queues[i := queues[i].(ready := false)];
      queues := queues[i := queues[i].(kick := None, call := None, err := None)];
      if !io || (kick.Some? && kick.value !in polled) {
        return true, None;
      }
      if kick.Some? {
        polled := polled - {kick.value};
      }
      ended, reply := false, Some(EncodeDescriptor(VRingDescriptor(i, queues[i].nextAvail)));
    }
  }
}
