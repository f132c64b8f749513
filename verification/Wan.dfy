/**
 The WAN device of oathgate-bridge/src/net/wan/wireguard.rs without its tunnel:
 reassembly of inbound fragments, NAT lookups and address rewriting. An error or a
 panic ends the device thread.
 */
module Wan {
  import opened Bytes
  import opened Ipv4
  import opened Nat

  //
  // Reassembly
  //

  type Cache = map<u16, Packet>

  /** An emitted packet: passed through, or put together from fragments. */
  datatype Out = Whole(pkt: Packet) | Joined(pkt: Packet)

  datatype Step = Continue(cache: Cache, out: Option<Out>) | Stop

  predicate IsWhole(p: Packet)
  {
    !MoreFragments(p) && p.header.fragOffset == 0
  }

  function Append(first: Packet, p: Packet): (r: Outcome<Packet>)
    ensures r.Ok? ==> r.value.header.id == first.header.id
  {
    if !HasPayload(p) then Panic else AddFragment(first, p.header.fragOffset, Payload(p))
  }

  /** The reassembly match of `handle_tun_result`. */
  function Reassemble(cache: Cache, p: Packet): (r: Step)
  {
    var id := p.header.id;
    if IsWhole(p) then Continue(cache, Some(Whole(p)))
    else if p.header.fragOffset == 0 then Continue(cache[id := p], None)
    else if MoreFragments(p) then
      if id !in cache then Continue(cache, None)
      else
        match Append(cache[id], p)
        case Ok(q) => Continue(cache[id := q], None)
        case _ => Stop
    else if id !in cache then Stop
    else
      match Append(cache[id], p)
      case Ok(q) =>
        (match Finalize(q)
         case Ok(f) => Continue(cache - {id}, Some(Joined(f)))
         case _ => Stop)
      case _ => Stop
  }

  datatype Run = Run(cache: Cache, outs: seq<Out>, alive: bool)

  function Emit(out: Option<Out>, rest: seq<Out>): (r: seq<Out>)
  {
    if out.Some? then [out.value] + rest else rest
  }

  function Exec(cache: Cache, trace: seq<Packet>): (r: Run)
    decreases trace
  {
    if trace == [] then Run(cache, [], true)
    else
      match Reassemble(cache, trace[0])
      case Stop => Run(cache, [], false)
      case Continue(cache', out) =>
        var r := Exec(cache', trace[1..]);
        r.(outs := Emit(out, r.outs))
  }

  /** The part of a trace, a cache and an output that concerns one id. */
  function Fragments(trace: seq<Packet>, id: u16): (r: seq<Packet>)
  {
    if trace == [] then []
    else if !IsWhole(trace[0]) && trace[0].header.id == id then [trace[0]] + Fragments(trace[1..], id)
    else Fragments(trace[1..], id)
  }

  function Wholes(trace: seq<Packet>): (r: seq<Packet>)
  {
    if trace == [] then []
    else if IsWhole(trace[0]) then [trace[0]] + Wholes(trace[1..])
    else Wholes(trace[1..])
  }

  function Entry(cache: Cache, id: u16): (r: Cache)
  {
    if id in cache then map[id := cache[id]] else map[]
  }

  function JoinedOf(outs: seq<Out>, id: u16): (r: seq<Packet>)
  {
    if outs == [] then []
    else if outs[0].Joined? && outs[0].pkt.header.id == id then [outs[0].pkt] + JoinedOf(outs[1..], id)
    else JoinedOf(outs[1..], id)
  }

  function WholesOf(outs: seq<Out>): (r: seq<Packet>)
  {
    if outs == [] then []
    else if outs[0].Whole? then [outs[0].pkt] + WholesOf(outs[1..])
    else WholesOf(outs[1..])
  }

  function AsJoined(pkts: seq<Packet>): (r: seq<Out>)
  {
    if pkts == [] then [] else [Joined(pkts[0])] + AsJoined(pkts[1..])
  }

  ghost predicate Keyed(cache: Cache)
  {
    forall id :: id in cache ==> cache[id].header.id == id
  }

  /** One step touches only the entry and the output of its own id. */
  lemma StepLocality(cache: Cache, p: Packet, id: u16)
    requires Keyed(cache)
    ensures var s := Reassemble(cache, p);
            && (s.Continue? ==> Keyed(s.cache))
            && (s.Continue? && s.out.Some? && s.out.value.Joined? ==> s.out.value.pkt.header.id == p.header.id)
            && (s.Continue? && (IsWhole(p) || p.header.id != id) ==> Entry(s.cache, id) == Entry(cache, id))
            && (!IsWhole(p) && p.header.id == id ==>
                  match s
                  case Stop => Reassemble(Entry(cache, id), p) == Stop
                  case Continue(c, out) => Reassemble(Entry(cache, id), p) == Continue(Entry(c, id), out))
  {
    if !IsWhole(p) && p.header.id == id && id in cache {
      assert Entry(cache, id)[id] == cache[id];
      assert Entry(cache, id) - {id} == map[];
      assert forall q :: Entry(cache, id)[id := q] == map[id := q];
    }
  }

  /** The packets handled before the thread ended. */
  function Lived(cache: Cache, trace: seq<Packet>): (r: nat)
    decreases trace
  {
    if trace == [] then 0
    else
      match Reassemble(cache, trace[0])
      case Stop => 0
      case Continue(cache', _) => 1 + Lived(cache', trace[1..])
  }

  /** A run is that of the packets handled before the thread ended. */
  lemma {:induction false} RunsWhileAlive(cache: Cache, trace: seq<Packet>)
    ensures Lived(cache, trace) <= |trace|
    ensures Exec(cache, trace).alive <==> Lived(cache, trace) == |trace|
    ensures Exec(cache, trace[..Lived(cache, trace)]) == Exec(cache, trace).(alive := true)
    decreases trace
  {
    if trace != [] && Reassemble(cache, trace[0]).Continue? {
      var cache' := Reassemble(cache, trace[0]).cache;
      RunsWhileAlive(cache', trace[1..]);
      assert trace[..Lived(cache, trace)][1..] == trace[1..][..Lived(cache', trace[1..])];
    }
  }

  /**
   For every trace and cache: what becomes of one id, up to the packet that ends the thread if
   one does, is what its own fragments alone lead to, whatever else arrives.
   */
  lemma OneIdAtATime(cache: Cache, trace: seq<Packet>, id: u16)
    requires Keyed(cache)
    ensures var r := Exec(cache, trace);
            var k := Lived(cache, trace);
            && k <= |trace| && (r.alive <==> k == |trace|)
            && Exec(Entry(cache, id), Fragments(trace[..k], id))
               == Run(Entry(r.cache, id), AsJoined(JoinedOf(r.outs, id)), true)
  {
    RunsWhileAlive(cache, trace);
    OneIdAlive(cache, trace[..Lived(cache, trace)], id);
  }

  lemma {:induction false} OneIdAlive(cache: Cache, trace: seq<Packet>, id: u16)
    requires Keyed(cache) && Exec(cache, trace).alive
    ensures var r := Exec(cache, trace);
            Exec(Entry(cache, id), Fragments(trace, id))
            == Run(Entry(r.cache, id), AsJoined(JoinedOf(r.outs, id)), true)
    decreases trace
  {
    if trace != [] {
      var p := trace[0];
      var s := Reassemble(cache, p);
      StepLocality(cache, p, id);
      OneIdAlive(s.cache, trace[1..], id);
      var r := Exec(cache, trace);
      EmittedFirst(s.out, Exec(s.cache, trace[1..]).outs, id);
      if !IsWhole(p) && p.header.id == id {
        assert Fragments(trace, id)[1..] == Fragments(trace[1..], id);
      }
    }
  }

  lemma EmittedFirst(out: Option<Out>, rest: seq<Out>, id: u16)
    ensures WholesOf(Emit(out, rest))
            == if out.Some? && out.value.Whole? then [out.value.pkt] + WholesOf(rest) else WholesOf(rest)
    ensures AsJoined(JoinedOf(Emit(out, rest), id))
            == if out.Some? && out.value.Joined? && out.value.pkt.header.id == id
               then [out.value] + AsJoined(JoinedOf(rest, id))
               else AsJoined(JoinedOf(rest, id))
  {
    if out.Some? {
      assert Emit(out, rest)[1..] == rest;
      assert ([out.value.pkt] + JoinedOf(rest, id))[1..] == JoinedOf(rest, id);
    }
  }

  /** Whole packets pass through in order. */
  lemma {:induction false} WholesPassThrough(cache: Cache, trace: seq<Packet>)
    requires Exec(cache, trace).alive
    ensures WholesOf(Exec(cache, trace).outs) == Wholes(trace)
    decreases trace
  {
    if trace != [] {
      var s := Reassemble(cache, trace[0]);
      WholesPassThrough(s.cache, trace[1..]);
      EmittedFirst(s.out, Exec(s.cache, trace[1..]).outs, 0);
    }
  }

  /** The thread survives the whole trace exactly when it survives each id's fragments alone. */
  lemma {:induction false} SurvivesIff(cache: Cache, trace: seq<Packet>)
    requires Keyed(cache)
    ensures Exec(cache, trace).alive <==> forall id: u16 :: Exec(Entry(cache, id), Fragments(trace, id)).alive
    decreases trace
  {
    if trace != [] {
      var p := trace[0];
      var s := Reassemble(cache, p);
      StepLocality(cache, p, p.header.id);
      if s.Stop? {
        assert !Exec(Entry(cache, p.header.id), Fragments(trace, p.header.id)).alive;
      } else {
        SurvivesIff(s.cache, trace[1..]);
        forall id: u16
          ensures Exec(Entry(cache, id), Fragments(trace, id)).alive
                  <==> Exec(Entry(s.cache, id), Fragments(trace[1..], id)).alive
        {
          StepLocality(cache, p, id);
          if !IsWhole(p) && p.header.id == id {
            assert Fragments(trace, id)[1..] == Fragments(trace[1..], id);
          }
        }
      }
    }
  }

  //
  // What ends the thread
  //

  /** A sequence's first and last fragment. */
  predicate Opens(p: Packet)
  {
    MoreFragments(p) && p.header.fragOffset == 0
  }

  predicate Closes(p: Packet)
  {
    !MoreFragments(p) && p.header.fragOffset > 0
  }

  predicate HasClosing(trace: seq<Packet>, id: u16)
  {
    exists i :: 0 <= i < |trace| && trace[i].header.id == id && Closes(trace[i])
  }

  /** A first fragment of the id has arrived, and no last one since. */
  predicate Opened(trace: seq<Packet>, id: u16)
  {
    exists i :: 0 <= i < |trace| && trace[i].header.id == id && Opens(trace[i]) && !HasClosing(trace[i + 1..], id)
  }

  /** The fragment does not fit behind or into what is cached, or leaves less than a header. */
  predicate Misfits(first: Packet, p: Packet)
    requires HasPayload(p)
  {
    var offset, n := p.header.fragOffset, |Payload(p)|;
    || !HasPayload(first)
    || (offset < |Payload(first)| && offset + n > |first.data|)
    || (Closes(p) && (if offset == |Payload(first)| then |first.data| + n
                      else if offset > |Payload(first)| then offset + n else |first.data|) < 20)
  }

  lemma EntryAfter(cache: Cache, p: Packet, id: u16)
    requires Reassemble(cache, p).Continue?
    ensures id in Reassemble(cache, p).cache <==>
            (p.header.id == id && Opens(p)) || (id in cache && !(p.header.id == id && Closes(p)))
  {
  }

  lemma ClosingFirst(p: Packet, rest: seq<Packet>, id: u16)
    ensures HasClosing([p] + rest, id) <==> (p.header.id == id && Closes(p)) || HasClosing(rest, id)
  {
    var trace := [p] + rest;
    if p.header.id == id && Closes(p) {
      assert trace[0] == p;
    }
    if HasClosing(rest, id) {
      var i :| 0 <= i < |rest| && rest[i].header.id == id && Closes(rest[i]);
      assert trace[i + 1] == rest[i];
    }
  }

  lemma OpenedFirst(p: Packet, rest: seq<Packet>, id: u16)
    ensures Opened([p] + rest, id) <==> (p.header.id == id && Opens(p) && !HasClosing(rest, id)) || Opened(rest, id)
  {
    hide HasClosing;
    var trace := [p] + rest;
    assert trace[1..] == rest;
    if p.header.id == id && Opens(p) && !HasClosing(rest, id) {
      assert trace[0] == p && trace[0 + 1..] == rest;
    }
    if Opened(rest, id) {
      var i :| 0 <= i < |rest| && rest[i].header.id == id && Opens(rest[i]) && !HasClosing(rest[i + 1..], id);
      assert trace[i + 1] == rest[i] && trace[i + 1 + 1..] == rest[i + 1..];
    }
    if Opened(trace, id) {
      var i :| 0 <= i < |trace| && trace[i].header.id == id && Opens(trace[i]) && !HasClosing(trace[i + 1..], id);
      if i > 0 {
        assert trace[i] == rest[i - 1] && trace[i + 1..] == rest[i - 1 + 1..];
      }
    }
  }

  /** An id is cached exactly while a sequence of it is open. */
  lemma {:induction false} CachedIffOpened(cache: Cache, trace: seq<Packet>, id: u16)
    requires Exec(cache, trace).alive
    ensures id in Exec(cache, trace).cache <==> Opened(trace, id) || (id in cache && !HasClosing(trace, id))
    decreases trace
  {
    if trace != [] {
      hide Reassemble, Opened, HasClosing;
      var cache' := Reassemble(cache, trace[0]).cache;
      CachedIffOpened(cache', trace[1..], id);
      EntryAfter(cache, trace[0], id);
      ClosingFirst(trace[0], trace[1..], id);
      OpenedFirst(trace[0], trace[1..], id);
      assert [trace[0]] + trace[1..] == trace;
    }
  }

  /** One packet ends the thread exactly if it is a last fragment without an entry, or misfits its entry. */
  lemma StopsIff(cache: Cache, p: Packet)
    requires HasPayload(p)
    ensures Reassemble(cache, p) == Stop <==>
            p.header.fragOffset > 0 && if p.header.id in cache then Misfits(cache[p.header.id], p) else Closes(p)
    ensures p.header.fragOffset > 0 && MoreFragments(p) && p.header.id !in cache ==>
              Reassemble(cache, p) == Continue(cache, None)
  {
  }

  lemma {:induction false} ExecSnoc(cache: Cache, trace: seq<Packet>, p: Packet)
    requires Exec(cache, trace).alive
    ensures Exec(cache, trace + [p]).alive <==> Reassemble(Exec(cache, trace).cache, p).Continue?
    decreases trace
  {
    hide Reassemble;
    var more := trace + [p];
    if trace == [] {
      assert more == [p] && more[1..] == [];
    } else {
      assert more[0] == trace[0] && more[1..] == trace[1..] + [p];
      ExecSnoc(Reassemble(cache, trace[0]).cache, trace[1..], p);
    }
  }

  /**
   After any trace the thread lived through: the next packet ends it exactly if it is a later
   fragment and either the last one of a sequence that is not open, or one that misfits what is cached.
   */
  lemma DiesIff(trace: seq<Packet>, p: Packet)
    requires Exec(map[], trace).alive && HasPayload(p)
    ensures var r := Exec(map[], trace);
            && (p.header.id in r.cache <==> Opened(trace, p.header.id))
            && (!Exec(map[], trace + [p]).alive <==>
                  && p.header.fragOffset > 0
                  && if p.header.id in r.cache then Misfits(r.cache[p.header.id], p) else Closes(p))
  {
    hide Reassemble, Misfits, Opened, HasClosing;
    CachedIffOpened(map[], trace, p.header.id);
    ExecSnoc(map[], trace, p);
    StopsIff(Exec(map[], trace).cache, p);
  }

  //
  // Fragments that arrive in order
  //

  function PayloadOf(p: Packet): (r: seq<u8>)
  {
    if HasPayload(p) then Payload(p) else []
  }

  /** The first `n` payloads, one after the other. */
  ghost function Concat(frags: seq<Packet>, n: nat): (r: seq<u8>)
    requires n <= |frags|
  {
    if n == 0 then [] else Concat(frags, n - 1) + PayloadOf(frags[n - 1])
  }

  /** Fragment `i` starts where the ones before it end, and only the last one has no successor. */
  ghost predicate FragmentFits(frags: seq<Packet>, id: u16, i: nat)
    requires i < |frags|
  {
    && HasPayload(frags[i]) && frags[i].header.id == id
    && frags[i].header.fragOffset == |Concat(frags, i)|
    && (i > 0 ==> frags[i].header.fragOffset > 0)
    && (MoreFragments(frags[i]) <==> i < |frags| - 1)
  }

  /** The first fragment has a whole header without options. */
  predicate HasHead(frags: seq<Packet>)
  {
    |frags| > 0 && |frags[0].data| >= 20 && frags[0].header.ihl == 5
  }

  /** The fragments of one datagram of at most 65535 bytes, in order. */
  ghost predicate InOrder(frags: seq<Packet>, id: u16)
  {
    && |frags| >= 2 && HasHead(frags)
    && (forall i :: 0 <= i < |frags| ==> FragmentFits(frags, id, i))
    && frags[0].header.length == |frags[0].data|
    && 20 + |Concat(frags, |frags|)| <= 0xFFFF
  }

  /** A packet with the first fragment's header and `n` payloads. */
  ghost function Partial(frags: seq<Packet>, n: nat): (r: Packet)
    requires 0 < n <= |frags| && HasHead(frags)
  {
    Packet(frags[0].header.(length := (20 + |Concat(frags, n)|) % 0x1_0000), frags[0].data[..20] + Concat(frags, n))
  }

  /** The datagram that comes out. */
  ghost function Datagram(frags: seq<Packet>): (r: Packet)
    requires HasHead(frags)
  {
    Finalize(Partial(frags, |frags|)).value
  }

  /** A finished packet with the header `h`, as an unfragmented one, and the payload `body`. */
  ghost predicate IsDatagram(d: Packet, h: Header, body: seq<u8>)
  {
    && HasPayload(d) && Payload(d) == body && |d.data| == 20 + |body|
    && d.header == h.(flags := 0, fragOffset := 0, length := d.header.length)
    && d.header.length == Be16At(d.data, 2) && Be16At(d.data, 6) == 0
    && Be16At(d.data, 10) == HeaderSum(d.data)
  }

  /**
   The datagram carries the concatenated payload, its length field counts it both in the
   header and in the bytes, it is no longer a fragment, and its other fields are those of
   the first fragment.
   */
  lemma DatagramContents(frags: seq<Packet>, d: Packet, body: seq<u8>)
    requires HasHead(frags) && d == Datagram(frags)
    requires body == Concat(frags, |frags|) && 20 + |body| <= 0xFFFF
    ensures IsDatagram(d, frags[0].header, body) && d.header.length == 20 + |body|
  {
    var p := Partial(frags, |frags|);
    PartialLength(frags, p, body);
    FinalizeToDatagram(frags, p, d);
    FinalizedContents(p, d, frags[0].header, frags[0].data[..20], body);
  }

  lemma PartialLength(frags: seq<Packet>, p: Packet, body: seq<u8>)
    requires HasHead(frags) && p == Partial(frags, |frags|)
    requires body == Concat(frags, |frags|) && 20 + |body| <= 0xFFFF
    ensures p.header == frags[0].header.(length := 20 + |body|) && p.data == frags[0].data[..20] + body
  {
    hide Concat;
  }

  lemma FinalizeToDatagram(frags: seq<Packet>, p: Packet, d: Packet)
    requires HasHead(frags) && p == Partial(frags, |frags|) && d == Datagram(frags)
    ensures Finalize(p) == Ok(d)
  {
  }

  lemma FinalizedContents(p: Packet, d: Packet, first: Header, front: seq<u8>, body: seq<u8>)
    requires |front| == 20 && p.data == front + body && p.header.ihl == 5
    requires p.header == first.(length := p.header.length) && Ok(d) == Finalize(p)
    ensures IsDatagram(d, first, body) && d.header.length == p.header.length
  {
    PrintedFields(d.header, p.data);
    FlagsFragParts(d.header);
    PrintedTail(d.header, p.data, d.data, front, body);
  }

  lemma PrintedTail(h: Header, buf: seq<u8>, out: seq<u8>, front: seq<u8>, body: seq<u8>)
    requires |front| == 20 && buf == front + body && Printed(h, buf, out)
    ensures out[20..] == body
  {
  }

  /** The first fragment opens the entry. */
  lemma PartialFirst(frags: seq<Packet>, id: u16)
    requires InOrder(frags, id)
    ensures Partial(frags, 1) == frags[0]
    ensures !IsWhole(frags[0]) && frags[0].header.fragOffset == 0
  {
    assert FragmentFits(frags, id, 0);
    assert Concat(frags, 1) == Payload(frags[0]);
    assert frags[0].data == frags[0].data[..20] + Payload(frags[0]);
  }

  /** A fragment that starts at the end of the payload is appended to it. */
  lemma AppendInOrder(p: Packet, q: Packet, front: seq<u8>, body: seq<u8>)
    requires p.header.ihl == 5 && |front| == 20 && p.data == front + body
    requires HasPayload(q) && q.header.fragOffset == |body|
    ensures Append(p, q) == Ok(Packet(p.header.(length := (p.header.length + |Payload(q)|) % 0x1_0000),
                                      front + (body + Payload(q))))
  {
    assert Payload(p) == body;
    assert p.data + Payload(q) == front + (body + Payload(q));
  }

  lemma Wrap16(a: nat, b: nat)
    ensures (a % 0x1_0000 + b) % 0x1_0000 == (a + b) % 0x1_0000
  {
  }

  /** Each later fragment extends it. */
  lemma PartialStep(frags: seq<Packet>, id: u16, n: nat)
    requires InOrder(frags, id) && 0 < n < |frags|
    ensures Append(Partial(frags, n), frags[n]) == Ok(Partial(frags, n + 1))
  {
    assert FragmentFits(frags, id, n);
    NextPartial(frags, n);
  }

  lemma NextPartial(frags: seq<Packet>, n: nat)
    requires HasHead(frags) && 0 < n < |frags|
    requires HasPayload(frags[n]) && frags[n].header.fragOffset == |Concat(frags, n)|
    ensures Append(Partial(frags, n), frags[n]) == Ok(Partial(frags, n + 1))
  {
    hide Append;
    var body := Concat(frags, n);
    assert Concat(frags, n + 1) == body + Payload(frags[n]);
    AppendInOrder(Partial(frags, n), frags[n], frags[0].data[..20], body);
    Wrap16(20 + |Concat(frags, n)|, |Payload(frags[n])|);
  }

  lemma LaterFragment(cache: Cache, first: Packet, p: Packet, q: Packet)
    requires Get(cache, p.header.id) == Some(first) && p.header.fragOffset > 0
    requires Append(first, p) == Ok(q) && |q.data| >= 20
    ensures Reassemble(cache, p)
            == if MoreFragments(p) then Continue(cache[p.header.id := q], None)
               else Continue(cache - {p.header.id}, Some(Joined(Finalize(q).value)))
  {
  }

  lemma PartialIsLong(frags: seq<Packet>, n: nat)
    requires 0 < n <= |frags| && HasHead(frags)
    ensures |Partial(frags, n).data| >= 20
  {
  }

  lemma NextFragment(cache: Cache, frags: seq<Packet>, id: u16, n: nat)
    requires InOrder(frags, id) && 0 < n < |frags|
    requires Get(cache, id) == Some(Partial(frags, n))
    ensures Reassemble(cache, frags[n])
            == if n + 1 < |frags| then Continue(cache[id := Partial(frags, n + 1)], None)
               else Continue(cache - {id}, Some(Joined(Datagram(frags))))
  {
    hide Reassemble, Append, Partial, Finalize, Concat;
    assert FragmentFits(frags, id, n);
    PartialStep(frags, id, n);
    PartialIsLong(frags, n + 1);
    LaterFragment(cache, Partial(frags, n), frags[n], Partial(frags, n + 1));
  }

  /** One fragment: the entry grows, or the last one completes the datagram. */
  lemma FragmentStep(cache: Cache, frags: seq<Packet>, id: u16, n: nat)
    requires InOrder(frags, id) && n < |frags|
    requires n > 0 ==> Get(cache, id) == Some(Partial(frags, n))
    ensures Reassemble(cache, frags[n])
            == if n + 1 < |frags| then Continue(cache[id := Partial(frags, n + 1)], None)
               else Continue(cache - {id}, Some(Joined(Datagram(frags))))
  {
    if n > 0 {
      NextFragment(cache, frags, id, n);
    } else {
      assert FragmentFits(frags, id, 0);
      PartialFirst(frags, id);
    }
  }

  /** From any fragment on, the rest of an in-order sequence completes the datagram. */
  lemma {:induction false} CompletesFrom(cache: Cache, frags: seq<Packet>, id: u16, n: nat, rest: seq<Packet>)
    requires InOrder(frags, id) && n < |frags|
    requires n > 0 ==> Get(cache, id) == Some(Partial(frags, n))
    ensures var r := Exec(cache - {id}, rest);
            Exec(cache, frags[n..] + rest) == r.(outs := [Joined(Datagram(frags))] + r.outs)
    decreases |frags| - n
  {
    hide Reassemble, Partial, Datagram;
    var trace := frags[n..] + rest;
    assert trace[0] == frags[n] && trace[1..] == frags[n + 1..] + rest;
    FragmentStep(cache, frags, id, n);
    if n + 1 < |frags| {
      var cache' := cache[id := Partial(frags, n + 1)];
      CompletesFrom(cache', frags, id, n + 1, rest);
      assert cache' - {id} == cache - {id};
    } else {
      assert trace[1..] == rest;
    }
  }

  ghost function Flatten(groups: seq<seq<Packet>>): (r: seq<Packet>)
  {
    if groups == [] then [] else groups[0] + Flatten(groups[1..])
  }

  ghost predicate AllInOrder(groups: seq<seq<Packet>>, id: u16)
  {
    forall i :: 0 <= i < |groups| ==> InOrder(groups[i], id)
  }

  ghost function Datagrams(groups: seq<seq<Packet>>, id: u16): (r: seq<Packet>)
    requires AllInOrder(groups, id)
  {
    if groups == [] then []
    else
      assert InOrder(groups[0], id);
      [Datagram(groups[0])] + Datagrams(groups[1..], id)
  }

  /** Consecutive in-order sequences of one id come out as their datagrams, in order. */
  lemma {:induction false} GroupsComplete(cache: Cache, groups: seq<seq<Packet>>, id: u16)
    requires AllInOrder(groups, id) && cache.Keys <= {id} && (groups == [] ==> id !in cache)
    ensures Exec(cache, Flatten(groups)) == Run(map[], AsJoined(Datagrams(groups, id)), true)
    decreases groups
  {
    if groups == [] {
      assert cache == map[];
    } else {
      assert InOrder(groups[0], id);
      PartialFirst(groups[0], id);
      CompletesFrom(cache, groups[0], id, 0, Flatten(groups[1..]));
      assert groups[0][0..] == groups[0];
      GroupsComplete(cache - {id}, groups[1..], id);
      assert Datagrams(groups, id)[1..] == Datagrams(groups[1..], id);
    }
  }

  lemma {:induction false} AsJoinedInjective(a: seq<Packet>, b: seq<Packet>)
    requires AsJoined(a) == AsJoined(b)
    ensures a == b
  {
    if a != [] && b != [] {
      assert AsJoined(a)[0] == AsJoined(b)[0];
      assert AsJoined(a)[1..] == AsJoined(b)[1..];
      AsJoinedInjective(a[1..], b[1..]);
      assert a == [a[0]] + a[1..] && b == [b[0]] + b[1..];
    }
  }

  /**
   Any interleaving of whole packets with in-order fragment sequences of any number of
   ids: the thread survives, the whole packets come out in order, each id's sequences
   come out as exactly one datagram each, in order, and nothing stays cached.
   */
  lemma InterleavedReassembly(trace: seq<Packet>, groups: u16 -> seq<seq<Packet>>)
    requires forall id: u16 :: AllInOrder(groups(id), id) && Fragments(trace, id) == Flatten(groups(id))
    ensures var r := Exec(map[], trace);
            && r.alive && r.cache == map[]
            && WholesOf(r.outs) == Wholes(trace)
            && forall id: u16 :: JoinedOf(r.outs, id) == Datagrams(groups(id), id)
  {
    forall id: u16 ensures Exec(Entry(map[], id), Fragments(trace, id)).alive {
      GroupsComplete(map[], groups(id), id);
    }
    SurvivesIff(map[], trace);
    WholesPassThrough(map[], trace);
    var r := Exec(map[], trace);
    forall id: u16 ensures id !in r.cache && JoinedOf(r.outs, id) == Datagrams(groups(id), id) {
      GroupsComplete(map[], groups(id), id);
      OneIdAlive(map[], trace, id);
      AsJoinedInjective(JoinedOf(r.outs, id), Datagrams(groups(id), id));
    }
  }

  //
  // Sequences that share an id
  //

  /**
   The fragments `f` are those of the sequences in `groups`, each in its own order but otherwise
   mixed in any way; `who` says whose each one is, and `pos` how many of each came before.
   */
  ghost predicate Shuffles(f: seq<Packet>, who: seq<nat>, groups: seq<seq<Packet>>, pos: seq<nat>)
    decreases f
  {
    && |who| == |f| && |pos| == |groups|
    && if f == [] then forall j :: 0 <= j < |groups| ==> pos[j] == |groups[j]|
       else
         && who[0] < |groups| && pos[who[0]] < |groups[who[0]]| && f[0] == groups[who[0]][pos[who[0]]]
         && Shuffles(f[1..], who[1..], groups, Advance(pos, who[0]))
  }

  function Advance(pos: seq<nat>, j: nat): (r: seq<nat>)
    requires j < |pos|
  {
    pos[j := pos[j] + 1]
  }

  /** Between two fragments of one sequence there is none of another. */
  ghost predicate NoOverlap(who: seq<nat>)
  {
    forall a, b, c :: 0 <= a < b < c < |who| && who[a] == who[c] ==> who[b] == who[a]
  }

  predicate Underway(groups: seq<seq<Packet>>, pos: seq<nat>, j: nat)
    requires |pos| == |groups| && j < |groups|
  {
    0 < pos[j] < |groups[j]|
  }

  /** How many of the first `n` sequences have begun and not ended. */
  function Open(groups: seq<seq<Packet>>, pos: seq<nat>, n: nat): (r: nat)
    requires |pos| == |groups| && n <= |groups|
  {
    if n == 0 then 0 else Open(groups, pos, n - 1) + if Underway(groups, pos, n - 1) then 1 else 0
  }

  /** The sequences in the order in which they end. */
  function Ending(who: seq<nat>, groups: seq<seq<Packet>>, pos: seq<nat>): (r: seq<nat>)
    requires |pos| == |groups|
  {
    if who == [] || who[0] >= |groups| then []
    else if pos[who[0]] + 1 == |groups[who[0]]| then [who[0]] + Ending(who[1..], groups, Advance(pos, who[0]))
    else Ending(who[1..], groups, Advance(pos, who[0]))
  }

  ghost function DatagramsOf(order: seq<nat>, groups: seq<seq<Packet>>, id: u16): (r: seq<Packet>)
    requires AllInOrder(groups, id) && forall i :: 0 <= i < |order| ==> order[i] < |groups|
  {
    if order == [] then []
    else
      assert InOrder(groups[order[0]], id);
      [Datagram(groups[order[0]])] + DatagramsOf(order[1..], groups, id)
  }

  lemma {:induction false} EndingIsOfGroups(who: seq<nat>, groups: seq<seq<Packet>>, pos: seq<nat>)
    requires |pos| == |groups|
    ensures forall i :: 0 <= i < |Ending(who, groups, pos)| ==> Ending(who, groups, pos)[i] < |groups|
    decreases who
  {
    if who != [] && who[0] < |groups| {
      EndingIsOfGroups(who[1..], groups, Advance(pos, who[0]));
    }
  }

  /** Every sequence that has not ended yet ends exactly once. */
  lemma {:induction false} EndsOnce(f: seq<Packet>, who: seq<nat>, groups: seq<seq<Packet>>, pos: seq<nat>, j: nat)
    requires Shuffles(f, who, groups, pos) && j < |groups|
    ensures multiset(Ending(who, groups, pos))[j] == if pos[j] < |groups[j]| then 1 else 0
    decreases f
  {
    if f != [] {
      EndsOnce(f[1..], who[1..], groups, Advance(pos, who[0]), j);
    }
  }

  lemma {:induction false} OpenAdvance(groups: seq<seq<Packet>>, pos: seq<nat>, j: nat, n: nat)
    requires |pos| == |groups| && j < |groups| && n <= |groups|
    ensures var next := Advance(pos, j);
            Open(groups, next, n) == Open(groups, pos, n)
              + if j >= n || Underway(groups, next, j) == Underway(groups, pos, j) then 0
                else if Underway(groups, next, j) then 1 else -1
  {
    if n > 0 {
      OpenAdvance(groups, pos, j, n - 1);
    }
  }

  lemma {:induction false} NoneOpen(groups: seq<seq<Packet>>, pos: seq<nat>, n: nat)
    requires |pos| == |groups| && n <= |groups| && forall j :: 0 <= j < n ==> !Underway(groups, pos, j)
    ensures Open(groups, pos, n) == 0
  {
    if n > 0 {
      NoneOpen(groups, pos, n - 1);
    }
  }

  lemma {:induction false} OneOpen(groups: seq<seq<Packet>>, pos: seq<nat>, j: nat, n: nat)
    requires |pos| == |groups| && j < n <= |groups| && Underway(groups, pos, j)
    ensures Open(groups, pos, n) >= 1
  {
    if j < n - 1 {
      OneOpen(groups, pos, j, n - 1);
    }
  }

  /** What one fragment of an in-order sequence is. */
  lemma FragmentKind(g: seq<Packet>, id: u16, n: nat)
    requires InOrder(g, id) && n < |g|
    ensures !IsWhole(g[n]) && g[n].header.id == id
    ensures g[n].header.fragOffset == 0 <==> n == 0
    ensures MoreFragments(g[n]) <==> n + 1 < |g|
  {
    PartialFirst(g, id);
    assert FragmentFits(g, id, n);
  }

  /** One step: an opening fragment fills the entry, the last one takes it out, or ends the thread. */
  lemma EntryStep(cache: Cache, g: seq<Packet>, id: u16, n: nat)
    requires InOrder(g, id) && n < |g| && cache.Keys <= {id}
    ensures var s := Reassemble(cache, g[n]);
            s.Continue? ==>
              && s.cache.Keys <= {id}
              && (id in s.cache <==> n == 0 || (n + 1 < |g| && id in cache))
              && (n + 1 == |g| ==> id in cache)
  {
    FragmentKind(g, id, n);
  }

  /** A living thread has an entry for every sequence that has begun and not ended: at most one. */
  lemma {:induction false} OpenAreCached(cache: Cache, f: seq<Packet>, who: seq<nat>, groups: seq<seq<Packet>>,
                                         pos: seq<nat>, id: u16)
    requires AllInOrder(groups, id) && Shuffles(f, who, groups, pos) && cache.Keys <= {id}
    requires Exec(cache, f).alive
    ensures Open(groups, pos, |groups|) <= if id in cache then 1 else 0
    decreases f
  {
    if f == [] {
      NoneOpen(groups, pos, |groups|);
    } else {
      var j := who[0];
      var next := Advance(pos, j);
      assert InOrder(groups[j], id);
      EntryStep(cache, groups[j], id, pos[j]);
      OpenAreCached(Reassemble(cache, f[0]).cache, f[1..], who[1..], groups, next, id);
      OpenAdvance(groups, pos, j, |groups|);
      assert Underway(groups, pos, j) <==> pos[j] > 0;
      assert Underway(groups, next, j) <==> pos[j] + 1 < |groups[j]|;
    }
  }

  lemma {:induction false} NotAgain(f: seq<Packet>, who: seq<nat>, groups: seq<seq<Packet>>, pos: seq<nat>, j: nat)
    requires Shuffles(f, who, groups, pos) && j < |groups|
    ensures j in who <==> pos[j] < |groups[j]|
    decreases f
  {
    if f != [] {
      NotAgain(f[1..], who[1..], groups, Advance(pos, who[0]), j);
      assert who == [who[0]] + who[1..];
    }
  }

  lemma OverlapLater(who: seq<nat>, j: nat)
    requires !NoOverlap(who)
    ensures !NoOverlap([j] + who)
  {
    var more := [j] + who;
    var a, b, c :| 0 <= a < b < c < |who| && who[a] == who[c] && who[b] != who[a];
    assert more[a + 1] == more[c + 1] && more[b + 1] != more[a + 1];
  }

  /** A sequence's next fragment right behind one of its own. */
  lemma GoesOn(who: seq<nat>, j: nat)
    requires who != [] && who[0] == j
    ensures NoOverlap([j] + who) <==> NoOverlap(who)
  {
    if NoOverlap(who) {
      var more := [j] + who;
      forall a, b, c | 0 <= a < b < c < |more| && more[a] == more[c] ensures more[b] == more[a] {
        if a > 0 {
          assert who[a - 1] == who[c - 1] && more[b] == who[b - 1];
        } else if b > 1 {
          assert who[0] == who[c - 1] && more[b] == who[b - 1];
        }
      }
    } else {
      OverlapLater(who, j);
    }
  }

  /** A sequence's last fragment. */
  lemma Finishes(who: seq<nat>, j: nat)
    requires j !in who
    ensures NoOverlap([j] + who) <==> NoOverlap(who)
  {
    if NoOverlap(who) {
      var more := [j] + who;
      forall a, b, c | 0 <= a < b < c < |more| && more[a] == more[c] ensures more[b] == more[a] {
        assert more[c] == who[c - 1] && more[b] == who[b - 1];
        assert a > 0 && more[a] == who[a - 1];
      }
    } else {
      OverlapLater(who, j);
    }
  }

  /** Another sequence cuts in. */
  lemma CutsIn(who: seq<nat>, j: nat)
    requires who != [] && who[0] != j && j in who
    ensures !NoOverlap([j] + who)
  {
    var c :| 0 <= c < |who| && who[c] == j;
    var more := [j] + who;
    assert more[0] == more[c + 1] && more[1] != more[0];
  }

  /** What the fragments of one id lead to: survival, and one datagram per sequence. */
  ghost predicate AllComplete(cache: Cache, f: seq<Packet>, order: seq<nat>, groups: seq<seq<Packet>>, id: u16)
    requires AllInOrder(groups, id) && forall i :: 0 <= i < |order| ==> order[i] < |groups|
  {
    Exec(cache, f) == Run(map[], AsJoined(DatagramsOf(order, groups, id)), true)
  }

  lemma QuietStep(cache: Cache, f: seq<Packet>, next: Cache, order: seq<nat>, groups: seq<seq<Packet>>, id: u16)
    requires AllInOrder(groups, id) && forall i :: 0 <= i < |order| ==> order[i] < |groups|
    requires f != [] && Reassemble(cache, f[0]) == Continue(next, None)
    ensures Exec(cache, f).alive <==> Exec(next, f[1..]).alive
    ensures AllComplete(next, f[1..], order, groups, id) ==> AllComplete(cache, f, order, groups, id)
  {
    hide Reassemble;
  }

  lemma EndingStep(cache: Cache, f: seq<Packet>, next: Cache, j: nat, order: seq<nat>, groups: seq<seq<Packet>>,
                   id: u16)
    requires AllInOrder(groups, id) && j < |groups| && forall i :: 0 <= i < |order| ==> order[i] < |groups|
    requires f != [] && InOrder(groups[j], id)
    requires Reassemble(cache, f[0]) == Continue(next, Some(Joined(Datagram(groups[j]))))
    ensures Exec(cache, f).alive <==> Exec(next, f[1..]).alive
    ensures AllComplete(next, f[1..], order, groups, id) ==> AllComplete(cache, f, [j] + order, groups, id)
  {
    hide Reassemble, Datagram;
    assert ([j] + order)[1..] == order;
    var rest := DatagramsOf(order, groups, id);
    assert ([Datagram(groups[j])] + rest)[1..] == rest;
  }

  /** Only sequence `j` moves. */
  lemma OthersWait(groups: seq<seq<Packet>>, pos: seq<nat>, j: nat)
    requires |pos| == |groups| && j < |groups|
    ensures forall k :: 0 <= k < |groups| && k != j ==>
              (Underway(groups, Advance(pos, j), k) <==> Underway(groups, pos, k))
  {
  }

  lemma FirstOf(f: seq<Packet>, who: seq<nat>, groups: seq<seq<Packet>>, pos: seq<nat>)
    requires Shuffles(f, who, groups, pos) && f != []
    ensures |who| == |f| && |pos| == |groups| && who[0] < |groups| && pos[who[0]] < |groups[who[0]]|
    ensures f[0] == groups[who[0]][pos[who[0]]] && Shuffles(f[1..], who[1..], groups, Advance(pos, who[0]))
    ensures Ending(who, groups, pos)
            == if pos[who[0]] + 1 == |groups[who[0]]| then [who[0]] + Ending(who[1..], groups, Advance(pos, who[0]))
               else Ending(who[1..], groups, Advance(pos, who[0]))
  {
  }

  lemma LastOf(f: seq<Packet>, who: seq<nat>, groups: seq<seq<Packet>>, pos: seq<nat>, j: nat)
    requires Shuffles(f, who, groups, pos)
    ensures |who| == |f| && |pos| == |groups|
    ensures j < |groups| && Underway(groups, pos, j) ==> f != []
  {
  }

  lemma NothingArrives(groups: seq<seq<Packet>>, pos: seq<nat>, id: u16)
    requires AllInOrder(groups, id) && |pos| == |groups|
    ensures Exec(map[], []).alive && NoOverlap([]) && Ending([], groups, pos) == []
    ensures AllComplete(map[], [], [], groups, id)
  {
  }

  /** From a moment at which no sequence is under way. */
  lemma {:induction false} FromIdle(f: seq<Packet>, who: seq<nat>, groups: seq<seq<Packet>>, pos: seq<nat>, id: u16)
    requires AllInOrder(groups, id) && Shuffles(f, who, groups, pos)
    requires forall k :: 0 <= k < |groups| ==> !Underway(groups, pos, k)
    ensures forall i :: 0 <= i < |Ending(who, groups, pos)| ==> Ending(who, groups, pos)[i] < |groups|
    ensures Exec(map[], f).alive <==> NoOverlap(who)
    ensures NoOverlap(who) ==> AllComplete(map[], f, Ending(who, groups, pos), groups, id)
    decreases f
  {
    hide Reassemble, Partial, Datagram, Exec, AllComplete, NoOverlap, DatagramsOf, Shuffles, Ending;
    LastOf(f, who, groups, pos, 0);
    EndingIsOfGroups(who, groups, pos);
    if f == [] {
      assert who == [];
      NothingArrives(groups, pos, id);
    } else {
      FirstOf(f, who, groups, pos);
      var j := who[0];
      assert InOrder(groups[j], id) && !Underway(groups, pos, j);
      FragmentStep(map[], groups[j], id, 0);
      assert [j] + who[1..] == who;
      OthersWait(groups, pos, j);
      FromOpen(f[1..], who[1..], groups, Advance(pos, j), id, j);
      QuietStep(map[], f, map[id := Partial(groups[j], 1)], Ending(who, groups, pos), groups, id);
    }
  }

  /** From a moment at which only sequence `j` is. */
  lemma {:induction false} FromOpen(f: seq<Packet>, who: seq<nat>, groups: seq<seq<Packet>>, pos: seq<nat>, id: u16,
                                    j: nat)
    requires AllInOrder(groups, id) && Shuffles(f, who, groups, pos) && j < |groups| && HasHead(groups[j])
    requires Underway(groups, pos, j) && forall k :: 0 <= k < |groups| && k != j ==> !Underway(groups, pos, k)
    ensures forall i :: 0 <= i < |Ending(who, groups, pos)| ==> Ending(who, groups, pos)[i] < |groups|
    ensures var cache := map[id := Partial(groups[j], pos[j])];
            && (Exec(cache, f).alive <==> NoOverlap([j] + who))
            && (NoOverlap([j] + who) ==> AllComplete(cache, f, Ending(who, groups, pos), groups, id))
    decreases f
  {
    hide Reassemble, Partial, Datagram, Exec, AllComplete, NoOverlap, Shuffles, Ending;
    LastOf(f, who, groups, pos, j);
    EndingIsOfGroups(who, groups, pos);
    assert InOrder(groups[j], id);
    FirstOf(f, who, groups, pos);
    var n := pos[j];
    var cache := map[id := Partial(groups[j], n)];
    var next := Advance(pos, who[0]);
    if who[0] != j {
      OverlapEnds(cache, f, who, groups, pos, id, j);
    } else {
      FragmentStep(cache, groups[j], id, n);
      GoesOn(who, j);
      OthersWait(groups, pos, j);
      assert [j] + who[1..] == who;
      if n + 1 < |groups[j]| {
        assert cache[id := Partial(groups[j], n + 1)] == map[id := Partial(groups[j], n + 1)];
        FromOpen(f[1..], who[1..], groups, next, id, j);
        QuietStep(cache, f, map[id := Partial(groups[j], n + 1)], Ending(who, groups, pos), groups, id);
      } else {
        NotAgain(f[1..], who[1..], groups, next, j);
        Finishes(who[1..], j);
        assert cache - {id} == map[];
        FromIdle(f[1..], who[1..], groups, next, id);
        EndingStep(cache, f, map[], j, Ending(who[1..], groups, next), groups, id);
      }
    }
  }

  /** A sequence that cuts into another ends the thread, at the latest when both have ended. */
  lemma OverlapEnds(cache: Cache, f: seq<Packet>, who: seq<nat>, groups: seq<seq<Packet>>, pos: seq<nat>, id: u16,
                    j: nat)
    requires AllInOrder(groups, id) && Shuffles(f, who, groups, pos) && cache.Keys <= {id}
    requires j < |groups| && Underway(groups, pos, j) && f != [] && who[0] != j && !Underway(groups, pos, who[0])
    ensures !Exec(cache, f).alive && !NoOverlap([j] + who)
  {
    var k := who[0];
    NotAgain(f, who, groups, pos, j);
    CutsIn(who, j);
    assert InOrder(groups[k], id);
    EntryStep(cache, groups[k], id, pos[k]);
    if Exec(cache, f).alive {
      OpenAreCached(Reassemble(cache, f[0]).cache, f[1..], who[1..], groups, Advance(pos, k), id);
      OneOpen(groups, pos, j, |groups|);
      OpenAdvance(groups, pos, k, |groups|);
    }
  }

  function Start(groups: seq<seq<Packet>>): (r: seq<nat>)
    ensures |r| == |groups| && forall j :: 0 <= j < |r| ==> r[j] == 0
  {
    seq(|groups|, _ => 0)
  }

  /**
   Complete in-order sequences of any senders, mixed with each other and with whole packets in
   any way: the thread survives if and only if no two sequences with one id overlap. Then the
   cache ends empty, whole packets pass in order, and every sequence has come out as its own
   datagram, once, in the order in which they end.
   */
  lemma SharedIdsIff(trace: seq<Packet>, groups: u16 -> seq<seq<Packet>>, who: u16 -> seq<nat>)
    requires forall id: u16 ::
               AllInOrder(groups(id), id) && Shuffles(Fragments(trace, id), who(id), groups(id), Start(groups(id)))
    ensures var r := Exec(map[], trace);
            && (r.alive <==> forall id: u16 :: NoOverlap(who(id)))
            && (r.alive ==>
                  && r.cache == map[] && WholesOf(r.outs) == Wholes(trace)
                  && forall id: u16 :: ComesOut(r.outs, who(id), groups(id), id))
  {
    var r := Exec(map[], trace);
    forall id: u16 ensures Exec(Entry(map[], id), Fragments(trace, id)).alive <==> NoOverlap(who(id)) {
      FromIdle(Fragments(trace, id), who(id), groups(id), Start(groups(id)), id);
    }
    SurvivesIff(map[], trace);
    if r.alive {
      WholesPassThrough(map[], trace);
      forall id: u16 ensures id !in r.cache && ComesOut(r.outs, who(id), groups(id), id) {
        FromIdle(Fragments(trace, id), who(id), groups(id), Start(groups(id)), id);
        OneIdAlive(map[], trace, id);
        EachComesOut(r.outs, Fragments(trace, id), who(id), groups(id), id);
      }
    }
  }

  /** The datagrams of one id are those of its sequences, each once, in the order in which they end. */
  ghost predicate ComesOut(outs: seq<Out>, who: seq<nat>, groups: seq<seq<Packet>>, id: u16)
    requires AllInOrder(groups, id)
  {
    var order := Ending(who, groups, Start(groups));
    && (forall j: nat :: j < |groups| ==> Once(order, j))
    && (forall i :: 0 <= i < |order| ==> order[i] < |groups|)
    && JoinedOf(outs, id) == DatagramsOf(order, groups, id)
  }

  predicate Once(order: seq<nat>, j: nat)
  {
    multiset(order)[j] == 1
  }

  lemma EachComesOut(outs: seq<Out>, f: seq<Packet>, who: seq<nat>, groups: seq<seq<Packet>>, id: u16)
    requires AllInOrder(groups, id) && Shuffles(f, who, groups, Start(groups))
    requires forall i :: 0 <= i < |Ending(who, groups, Start(groups))| ==>
               Ending(who, groups, Start(groups))[i] < |groups|
    requires AsJoined(JoinedOf(outs, id)) == AsJoined(DatagramsOf(Ending(who, groups, Start(groups)), groups, id))
    ensures ComesOut(outs, who, groups, id)
  {
    var order := Ending(who, groups, Start(groups));
    AsJoinedInjective(JoinedOf(outs, id), DatagramsOf(order, groups, id));
    forall j: nat | j < |groups| ensures Once(order, j) {
      assert InOrder(groups[j], id);
      EndsOnce(f, who, groups, Start(groups), j);
    }
  }

  //
  // The device
  //

  datatype WanState = WanState(table: Table, cache: Cache, alive: bool)

  /** An IPv4 packet leaves the tunnel: the new state and what goes to the router. */
  function Inbound(s: WanState, bytes: seq<u8>): (r: (WanState, Option<Packet>))
  {
    match Parse(bytes)
    case Ok(p) =>
      (match Reassemble(s.cache, p)
       case Continue(cache, Some(out)) =>
         Route(s.(cache := cache), out.pkt)
       case Continue(cache, None) => (s.(cache := cache), None)
       case Stop => (s.(alive := false), None))
    case _ => (s.(alive := false), None)
  }

  function Route(s: WanState, p: Packet): (r: (WanState, Option<Packet>))
  {
    if Key(p, true).Panic? then (s.(alive := false), None)
    else
      match Lookup(s.table, p)
      case None => (s, None)
      case Some(orig) =>
        if Editable(p) then (s, Some(Unmasquerade(p, orig))) else (s.(alive := false), None)
  }

  /** A packet from the router enters the tunnel: the new state and the bytes to encrypt. */
  function Outbound(s: WanState, ipv4: u32, p: Packet): (r: (WanState, Option<seq<u8>>))
  {
    if Key(p, false).Panic? then (s.(alive := false), None)
    else
      var s' := s.(table := Insert(s.table, p));
      if Editable(p) then (s', Some(Masquerade(p, ipv4).data)) else (s'.(alive := false), None)
  }

  /** The inbound packet `bytes` completes the packet `p`. */
  ghost predicate Completes(s: WanState, bytes: seq<u8>, p: Packet)
  {
    && s.alive && Parse(bytes).Ok?
    && var step := Reassemble(s.cache, Parse(bytes).value);
       step.Continue? && step.out.Some? && step.out.value.pkt == p
  }

  /** Sent packet `i` is the latest one that `p` is a reply to. */
  ghost predicate AnswersLast(sent: seq<Packet>, i: nat, p: Packet)
  {
    i < |sent| && IsReplyTo(p, sent[i]) && forall j :: i < j < |sent| ==> !IsReplyTo(p, sent[j])
  }

  /** The reply `p` with the address `to` for its destination, in the header and in the bytes. */
  ghost predicate SentBackTo(p: Packet, q: Packet, to: u32)
  {
    && Editable(p) && q.header == p.header.(dst := to)
    && (p.header.ihl >= 5 ==> Rewritten(p, q.data, p.header.src, to))
  }

  /**
   A completed packet goes to the router only as a reply: if it answers nothing that was sent it is
   dropped, and otherwise it gets the source of the latest packet it answers for destination.
   */
  lemma OnlyRepliesPass(s: WanState, sent: seq<Packet>, bytes: seq<u8>, p: Packet)
    requires s.table == After(sent) && Completes(s, bytes, p)
    ensures (forall i :: 0 <= i < |sent| ==> !IsReplyTo(p, sent[i])) ==> Inbound(s, bytes).1 == None
    ensures forall i :: 0 <= i < |sent| && AnswersLast(sent, i, p) ==>
              match Inbound(s, bytes)
              case (s', Some(q)) => s'.alive && SentBackTo(p, q, sent[i].header.src)
              case (s', None) => !s'.alive && !Editable(p)
  {
    hide Parse, Reassemble, Editable, Rewritten, Readdress, After, IsReplyTo;
    UnaskedFindsNothing(sent, p);
    if Lookup(s.table, p).Some? {
      var i := FoundIsLatest(sent, p);
      if Editable(p) && p.header.ihl >= 5 {
        OneAddressIsRewritten(p, sent[i].header.src);
      }
    }
  }

  /**
   An inbound packet ends the thread exactly if it does not parse, does not fit what is cached, or
   completes a packet that is too short to look up, or to rewrite once it is found.
   */
  lemma InboundEndsIff(s: WanState, bytes: seq<u8>)
    requires s.alive
    ensures !Inbound(s, bytes).0.alive <==>
              || !Parse(bytes).Ok? || Reassemble(s.cache, Parse(bytes).value) == Stop
              || exists p :: Completes(s, bytes, p) && (TooShort(p) || (Lookup(s.table, p).Some? && !Editable(p)))
    ensures Inbound(s, bytes).0.alive ==>
              && Inbound(s, bytes).0.table == s.table
              && Inbound(s, bytes).0.cache == Reassemble(s.cache, Parse(bytes).value).cache
  {
    hide Editable, Readdress;
    if Parse(bytes).Ok? {
      var step := Reassemble(s.cache, Parse(bytes).value);
      if step.Continue? && step.out.Some? {
        assert Completes(s, bytes, step.out.value.pkt);
      }
    }
  }

  /** No room for the destination port of TCP or UDP, or for the ICMP id. */
  predicate TooShort(p: Packet)
  {
    p.header.protocol in {1, 6, 17} && SentTo(p).None?
  }

  /** Whatever goes to the router is a completed packet. */
  lemma OnlyCompletedPass(s: WanState, bytes: seq<u8>)
    requires s.alive && Inbound(s, bytes).1.Some?
    ensures exists p :: Completes(s, bytes, p)
  {
    hide Parse, Reassemble, Route;
    var out := Reassemble(s.cache, Parse(bytes).value).out.value;
    assert Completes(s, bytes, out.pkt);
  }

  /** A packet enters the tunnel with the WAN address for its source and its own destination. */
  lemma LeavesMasqueraded(s: WanState, ipv4: u32, p: Packet)
    ensures var (s', out) := Outbound(s, ipv4, p);
            && s'.table == Insert(s.table, p) && s'.cache == s.cache
            && (out.Some? <==> Key(p, false).Ok? && Editable(p)) && (s'.alive <==> s.alive && out.Some?)
            && (out.Some? ==> |out.value| == |p.data|)
            && (out.Some? && p.header.ihl >= 5 ==> Rewritten(p, out.value, ipv4, p.header.dst))
  {
    hide Editable, Rewritten, Readdress;
    if Editable(p) && p.header.ihl >= 5 {
      OneAddressIsRewritten(p, ipv4);
    }
  }

  class WgDevice {
    const ipv4: u32
    const natTable: NatTable
    var cache: Cache
    var alive: bool
    /** Packets handed to the router, and bytes handed to the tunnel. */
    var routed: seq<Packet>
    var tunnel: seq<seq<u8>>

    function View(): (r: WanState)
      reads this, natTable
    {
      WanState(natTable.table, cache, alive)
    }

    constructor (ipv4: u32)
      ensures View() == WanState(map[], map[], true) && fresh(natTable)
      ensures this.ipv4 == ipv4 && routed == [] && tunnel == []
    {
      this.ipv4 := ipv4;
      natTable := new NatTable();
      cache, alive, routed, tunnel := map[], true, [], [];
    }

    /** The `WriteToTunnelV4` branch of `handle_tun_result`. */
    method HandleTunnelV4(bytes: seq<u8>)
      modifies this
      ensures View() == Inbound(old(View()), bytes).0
      ensures routed == old(routed) + match Inbound(old(View()), bytes).1 case Some(p) => [p] case None => []
      ensures tunnel == old(tunnel)
    {
      var parsed := Parse(bytes);
      if !parsed.Ok? {
        alive := false;
        return;
      }
      var whole := RebuildFragments(parsed.value);
      if whole.None? {
        return;
      }
      var p := whole.value;
      if Key(p, true).Panic? {
        alive := false;
        return;
      }
      var orig := natTable.GetSource(p);
      if orig.Some? {
        if !Editable(p) {
          alive := false;
          return;
        }
        var pkt := new Ipv4Packet(p);
        pkt.SetDestination(orig.value);
        routed := routed + [pkt.View()];
      }
    }

    method RebuildFragments(p: Packet) returns (whole: Option<Packet>)
      modifies this
      ensures match Reassemble(old(cache), p)
              case Continue(c, out) => cache == c && alive == old(alive)
                && whole == (match out case Some(o) => Some(o.pkt) case None => None)
              case Stop => cache == old(cache) && !alive && whole == None
      ensures routed == old(routed) && tunnel == old(tunnel)
    {
      var id, offset := p.header.id, p.header.fragOffset;
      whole := None;
      if !MoreFragments(p) && offset == 0 {
        whole := Some(p);
      } else if offset == 0 {
        cache := cache[id := p];
      } else if id in cache {
        if !Append(cache[id], p).Ok? {
          alive := false;
          return;
        }
        var fpkt := new Ipv4Packet(cache[id]);
        fpkt.AddFragmentData(offset, Payload(p));
        if MoreFragments(p) {
          cache := cache[id := fpkt.View()];
        } else if |fpkt.data| < 20 {
          alive := false;
        } else {
          cache := cache - {id};
          fpkt.FinalizePacket();
          whole := Some(fpkt.View());
        }
      } else if !MoreFragments(p) {
        alive := false;
      }
    }

    /** One turn of the `TOKEN_WAKER` loop. */
    method SendOutbound(p: Packet)
      modifies this, natTable
      ensures View() == Outbound(old(View()), ipv4, p).0
      ensures tunnel == old(tunnel) + match Outbound(old(View()), ipv4, p).1 case Some(b) => [b] case None => []
      ensures routed == old(routed)
      ensures |tunnel| > |old(tunnel)| && p.header.ihl >= 5 ==> Rewritten(p, tunnel[|old(tunnel)|], ipv4, p.header.dst)
    {
      LeavesMasqueraded(View(), ipv4, p);
      hide Rewritten;
      if Key(p, false).Panic? {
        alive := false;
        return;
      }
      natTable.InsertPacket(p);
      if !Editable(p) {
        alive := false;
        return;
      }
      var pkt := new Ipv4Packet(p);
      pkt.SetSource(ipv4);
      tunnel := tunnel + [pkt.data];
    }
  }
}
