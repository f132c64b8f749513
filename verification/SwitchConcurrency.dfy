/**
 The switch shared by several threads: `process` of oathgate-bridge/src/net/switch.rs
 split where it takes and releases its locks. The cache lock is held for one step; the
 read lock on the ports is held from `Acquire` to the end of the call and keeps new
 devices from connecting.
 */
module SwitchConcurrency {
  import opened Bytes
  import opened Frame
  import opened Switch

  datatype Pc =
    | Check
    | Associate
    | Acquire
    | Flood(next: nat)
    | Lookup
    | Send(target: nat)
    | Done

  /** A call of `process`; `width` is the number of ports when it took the ports lock. */
  datatype Caller = Caller(port: nat, pkt: EthernetPacket, pc: Pc, width: nat, sent: seq<nat>) {
    predicate HoldsPorts()
    {
      pc.Flood? || pc.Lookup? || pc.Send?
    }

    /** The call is past the point where the cache names its source on its port. */
    predicate HasLearned()
    {
      !pc.Check? && !pc.Associate?
    }
  }

  /** A call's learning point: a matching cache entry found, or an entry written. */
  datatype Learn = Learn(caller: nat, mac: Mac, port: nat, wrote: bool)

  /** `log` records every enqueue as the call that made it and the port it went to. */
  datatype State = State(nports: nat, cache: Cache, callers: seq<Caller>, log: seq<(nat, nat)>, learns: seq<Learn>)

  datatype Action = Connect | Start(port: nat, bytes: seq<u8>) | Step(caller: nat)

  const INIT := State(0, map[], [], [], [])

  /** A step that is not enabled changes nothing. */
  function Next(s: State, a: Action): (r: State)
  {
    match a
    case Connect =>
      if exists i :: 0 <= i < |s.callers| && s.callers[i].HoldsPorts() then s else s.(nports := s.nports + 1)
    case Start(port, bytes) =>
      (match ExtractFrame(bytes)
       case Some(pkt) =>
         if port < s.nports then s.(callers := s.callers + [Caller(port, pkt, Check, 0, [])]) else s
       case None => s)
    case Step(i) => if i < |s.callers| then CallerStep(s, i) else s
  }

  function Goto(s: State, i: nat, pc: Pc): (r: State)
    requires i < |s.callers|
  {
    s.(callers := s.callers[i := s.callers[i].(pc := pc)])
  }

  function Enqueue(s: State, i: nat, port: nat): (r: State)
    requires i < |s.callers|
  {
    s.(callers := s.callers[i := s.callers[i].(sent := s.callers[i].sent + [port])], log := s.log + [(i, port)])
  }

  function CallerStep(s: State, i: nat): (r: State)
    requires i < |s.callers|
  {
    var c := s.callers[i];
    match c.pc
    case Check =>
      if Get(s.cache, c.pkt.frame.src) == Some(c.port) then
        Goto(s, i, Acquire).(learns := s.learns + [Learn(i, c.pkt.frame.src, c.port, false)])
      else Goto(s, i, Associate)
    case Associate =>
      Goto(s, i, Acquire).(cache := s.cache[c.pkt.frame.src := c.port],
                           learns := s.learns + [Learn(i, c.pkt.frame.src, c.port, true)])
    case Acquire =>
      var c' := c.(width := s.nports, pc := if c.pkt.frame.dst == BROADCAST then Flood(0) else Lookup);
      s.(callers := s.callers[i := c'])
    case Flood(next) =>
      if next >= s.nports then Goto(s, i, Done)
      else if next == c.port then Goto(s, i, Flood(next + 1))
      else Goto(Enqueue(s, i, next), i, Flood(next + 1))
    case Lookup =>
      (match Get(s.cache, c.pkt.frame.dst)
       case Some(target) => Goto(s, i, Send(target))
       case None => Goto(s, i, Done))
    case Send(target) => if target < s.nports then Goto(Enqueue(s, i, target), i, Done) else Goto(s, i, Done)
    case Done => s
  }

  function Run(s: State, actions: seq<Action>): (r: State)
  {
    if actions == [] then s else Next(Run(s, actions[..|actions| - 1]), actions[|actions| - 1])
  }

  /** The ports one call has enqueued to, in order. */
  function Enqueued(log: seq<(nat, nat)>, i: nat): (r: seq<nat>)
  {
    if log == [] then []
    else
      var rest := Enqueued(log[..|log| - 1], i);
      if log[|log| - 1].0 == i then rest + [log[|log| - 1].1] else rest
  }

  /** Some call carried a frame from `mac` on `port`. */
  ghost predicate Seen(s: State, mac: Mac, port: nat)
  {
    exists i :: 0 <= i < |s.callers| && CarriedBy(s.callers[i], mac, port)
  }

  predicate CarriedBy(c: Caller, mac: Mac, port: nat)
  {
    c.pkt.frame.src == mac && c.port == port
  }

  ghost predicate CallerInv(s: State, c: Caller)
  {
    && c.port < s.nports
    && (c.HoldsPorts() ==> c.width == s.nports)
    && (c.pc.Check? || c.pc.Associate? || c.pc.Acquire? || c.pc.Lookup? ==> c.sent == [])
    && (c.pc.Flood? ==> c.pkt.frame.dst == BROADCAST && c.pc.next <= s.nports && c.sent == AllBut(c.pc.next, c.port))
    && (c.pc.Lookup? ==> c.pkt.frame.dst != BROADCAST)
    && (c.pc.Send? ==> c.pkt.frame.dst != BROADCAST && c.sent == [])
    && (c.pc.Send? ==> c.pc.target < s.nports && Seen(s, c.pkt.frame.dst, c.pc.target))
    && (c.pc.Done? ==> c.width <= s.nports && Delivered(s, c))
  }

  /** What a finished call has sent. */
  ghost predicate Delivered(s: State, c: Caller)
  {
    if c.pkt.frame.dst == BROADCAST then c.sent == AllBut(c.width, c.port)
    else c.sent == [] || (|c.sent| == 1 && c.sent[0] < c.width && Seen(s, c.pkt.frame.dst, c.sent[0]))
  }

  ghost predicate Inv(s: State)
  {
    && (forall m :: m in s.cache ==> s.cache[m] < s.nports && Seen(s, m, s.cache[m]))
    && (forall i :: 0 <= i < |s.callers| ==> CallerInv(s, s.callers[i]))
    && (forall i :: 0 <= i < |s.callers| ==> Enqueued(s.log, i) == s.callers[i].sent)
    && (forall k :: 0 <= k < |s.log| ==> s.log[k].0 < |s.callers|)
  }

  /** Calls keep their frame and port, and ports only grow in number. */
  ghost predicate Extends(s: State, t: State)
  {
    && s.nports <= t.nports && |s.callers| <= |t.callers|
    && forall i :: 0 <= i < |s.callers| ==>
         t.callers[i].port == s.callers[i].port && t.callers[i].pkt == s.callers[i].pkt
  }

  lemma SeenStays(s: State, t: State, mac: Mac, port: nat)
    requires Extends(s, t) && Seen(s, mac, port)
    ensures Seen(t, mac, port)
  {
    var i :| 0 <= i < |s.callers| && CarriedBy(s.callers[i], mac, port);
    assert CarriedBy(t.callers[i], mac, port);
  }

  /** A caller that did not move keeps its invariant. */
  lemma OthersKeep(s: State, t: State, c: Caller)
    requires Extends(s, t) && CallerInv(s, c) && (c.HoldsPorts() ==> t.nports == s.nports)
    ensures CallerInv(t, c)
  {
    if c.pc.Send? {
      SeenStays(s, t, c.pkt.frame.dst, c.pc.target);
    }
    if c.pc.Done? && c.pkt.frame.dst != BROADCAST && c.sent != [] {
      SeenStays(s, t, c.pkt.frame.dst, c.sent[0]);
    }
  }

  lemma CacheKeeps(s: State, t: State)
    requires Extends(s, t) && Inv(s) && t.cache == s.cache
    ensures forall m :: m in t.cache ==> t.cache[m] < t.nports && Seen(t, m, t.cache[m])
  {
    forall m | m in t.cache ensures t.cache[m] < t.nports && Seen(t, m, t.cache[m]) {
      SeenStays(s, t, m, s.cache[m]);
    }
  }

  lemma {:induction false} NothingEnqueuedYet(log: seq<(nat, nat)>, i: nat)
    requires forall k :: 0 <= k < |log| ==> log[k].0 < i
    ensures Enqueued(log, i) == []
  {
    if log != [] {
      NothingEnqueuedYet(log[..|log| - 1], i);
    }
  }

  lemma NextKeepsInv(s: State, a: Action)
    requires Inv(s)
    ensures Inv(Next(s, a))
  {
    if a.Step? && a.caller < |s.callers| {
      hide CallerStep, Inv;
      StepKeepsInv(s, a.caller);
    } else {
      ArrivalKeepsInv(s, a);
    }
  }

  /** A new device or a new call. */
  lemma ArrivalKeepsInv(s: State, a: Action)
    requires Inv(s) && !(a.Step? && a.caller < |s.callers|)
    ensures Inv(Next(s, a))
  {
    var t := Next(s, a);
    ArrivalAdds(s, a, t);
    CacheKeeps(s, t);
    hide Next;
    forall i | 0 <= i < |s.callers| ensures CallerInv(t, s.callers[i]) {
      OthersKeep(s, t, s.callers[i]);
    }
    NothingEnqueuedYet(s.log, |s.callers|);
  }

  predicate JustStarted(c: Caller, nports: nat)
  {
    c.port < nports && c.pc.Check? && c.sent == []
  }

  lemma ArrivalAdds(s: State, a: Action, t: State)
    requires !(a.Step? && a.caller < |s.callers|) && t == Next(s, a)
    ensures t.cache == s.cache && t.log == s.log && Extends(s, t)
    ensures t.nports == s.nports || forall i :: 0 <= i < |s.callers| ==> !s.callers[i].HoldsPorts()
    ensures || t.callers == s.callers
            || (|t.callers| == |s.callers| + 1 && t.callers == s.callers + [t.callers[|s.callers|]]
                && JustStarted(t.callers[|s.callers|], s.nports))
  {
  }

  lemma StepKeepsInv(s: State, i: nat)
    requires Inv(s) && i < |s.callers|
    ensures Inv(CallerStep(s, i))
  {
    var t := CallerStep(s, i);
    LogStep(s, i);
    MoverKeepsInv(s, i);
    CacheStep(s, i);
    hide CallerStep, CallerInv;
    forall j | 0 <= j < |t.callers| ensures CallerInv(t, t.callers[j]) {
      if j != i {
        OthersStay(s, i, j);
        OthersKeep(s, t, s.callers[j]);
      }
    }
  }

  lemma OthersStay(s: State, i: nat, j: nat)
    requires i < |s.callers| && j < |s.callers| && i != j
    ensures |CallerStep(s, i).callers| == |s.callers|
    ensures CallerStep(s, i).callers[j] == s.callers[j] && CallerStep(s, i).nports == s.nports
  {
  }

  lemma CacheStep(s: State, i: nat)
    requires Inv(s) && i < |s.callers| && Extends(s, CallerStep(s, i))
    ensures var t := CallerStep(s, i);
            forall m :: m in t.cache ==> t.cache[m] < t.nports && Seen(t, m, t.cache[m])
  {
    var t := CallerStep(s, i);
    var c := s.callers[i];
    if c.pc.Associate? {
      assert CallerInv(s, c);
      assert CarriedBy(t.callers[i], c.pkt.frame.src, c.port);
      forall m | m in t.cache ensures t.cache[m] < t.nports && Seen(t, m, t.cache[m]) {
        if m != c.pkt.frame.src {
          SeenStays(s, t, m, s.cache[m]);
        }
      }
    } else {
      assert t.cache == s.cache;
      CacheKeeps(s, t);
    }
  }

  /** A step logs at most one enqueue, of its own call. */
  lemma StepLogs(s: State, i: nat)
    requires i < |s.callers|
    ensures var t := CallerStep(s, i);
            && |t.callers| == |s.callers|
            && (t.log == s.log ==> t.callers[i].sent == s.callers[i].sent)
            && (t.log != s.log ==>
                  && |t.log| == |s.log| + 1 && t.log[..|s.log|] == s.log && t.log[|s.log|].0 == i
                  && t.callers[i].sent == s.callers[i].sent + [t.log[|s.log|].1])
  {
  }

  lemma LogStep(s: State, i: nat)
    requires Inv(s) && i < |s.callers|
    ensures var t := CallerStep(s, i);
            && |t.callers| == |s.callers|
            && (forall j :: 0 <= j < |t.callers| ==> Enqueued(t.log, j) == t.callers[j].sent)
            && (forall k :: 0 <= k < |t.log| ==> t.log[k].0 < |t.callers|)
  {
    hide CallerStep, CallerInv, Seen;
    var t := CallerStep(s, i);
    StepLogs(s, i);
    forall j | 0 <= j < |s.callers| && j != i ensures t.callers[j] == s.callers[j] {
      OthersStay(s, i, j);
    }
  }

  lemma StepExtends(s: State, i: nat)
    requires i < |s.callers|
    ensures Extends(s, CallerStep(s, i))
  {
  }

  /** The call's next place after a step that sends nothing and reads no entry of the cache for its target. */
  lemma PlainStep(s: State, i: nat)
    requires i < |s.callers| && CallerInv(s, s.callers[i])
    requires var pc := s.callers[i].pc; pc.Check? || pc.Associate? || pc.Acquire?
    ensures CallerInv(CallerStep(s, i), CallerStep(s, i).callers[i])
  {
    hide Seen, Delivered;
  }

  lemma FloodStep(s: State, i: nat)
    requires i < |s.callers| && CallerInv(s, s.callers[i]) && s.callers[i].pc.Flood?
    ensures CallerInv(CallerStep(s, i), CallerStep(s, i).callers[i])
  {
    hide Seen;
  }

  lemma LookupStep(s: State, i: nat)
    requires i < |s.callers| && CallerInv(s, s.callers[i]) && s.callers[i].pc.Lookup?
    requires var m := s.callers[i].pkt.frame.dst; m in s.cache ==> s.cache[m] < s.nports && Seen(s, m, s.cache[m])
    ensures CallerInv(CallerStep(s, i), CallerStep(s, i).callers[i])
  {
    hide Seen;
    var t, m := CallerStep(s, i), s.callers[i].pkt.frame.dst;
    if m in s.cache {
      SeenStays(s, t, m, s.cache[m]);
    }
  }

  lemma SendStep(s: State, i: nat)
    requires i < |s.callers| && CallerInv(s, s.callers[i]) && s.callers[i].pc.Send?
    ensures CallerInv(CallerStep(s, i), CallerStep(s, i).callers[i])
  {
    hide Seen;
    SeenStays(s, CallerStep(s, i), s.callers[i].pkt.frame.dst, s.callers[i].pc.target);
  }

  lemma MoverKeepsInv(s: State, i: nat)
    requires Inv(s) && i < |s.callers|
    ensures Extends(s, CallerStep(s, i)) && CallerInv(CallerStep(s, i), CallerStep(s, i).callers[i])
  {
    StepExtends(s, i);
    var c := s.callers[i];
    assert CallerInv(s, c);
    if c.pc.Done? {
      assert CallerStep(s, i) == s;
    } else {
      hide CallerStep, CallerInv, Extends, Seen;
      match c.pc
      case Flood(next) => FloodStep(s, i);
      case Lookup => LookupStep(s, i);
      case Send(target) => SendStep(s, i);
      case _ => PlainStep(s, i);
    }
  }

  lemma {:induction false} InvAlways(actions: seq<Action>)
    ensures Inv(Run(INIT, actions))
  {
    if actions != [] {
      var before := actions[..|actions| - 1];
      InvAlways(before);
      NextKeepsInv(Run(INIT, before), actions[|actions| - 1]);
    }
  }

  /**
   In every run of any number of callers: each cache entry comes from a frame of that MAC
   on that port, and names a connected port; a finished broadcast was enqueued exactly once
   on every port but the sender's; a finished unicast frame was enqueued at most once, on a
   connected port where its destination has been seen.
   */
  lemma EveryRunIsSafe(actions: seq<Action>, s: State)
    requires s == Run(INIT, actions)
    ensures forall m :: m in s.cache ==> s.cache[m] < s.nports && Seen(s, m, s.cache[m])
    ensures forall i :: 0 <= i < |s.callers| && s.callers[i].pc.Done? ==> SafelyDelivered(s, i)
  {
    InvAlways(actions);
    hide Run;
    forall i | 0 <= i < |s.callers| && s.callers[i].pc.Done? ensures SafelyDelivered(s, i) {
      assert CallerInv(s, s.callers[i]) && Enqueued(s.log, i) == s.callers[i].sent;
    }
  }

  ghost predicate SafelyDelivered(s: State, i: nat)
    requires i < |s.callers|
  {
    var c := s.callers[i];
    if c.pkt.frame.dst == BROADCAST then Enqueued(s.log, i) == AllBut(c.width, c.port)
    else
      && |Enqueued(s.log, i)| <= 1
      && forall p :: p in Enqueued(s.log, i) ==> p < s.nports && Seen(s, c.pkt.frame.dst, p)
  }

  //
  // What the cache says, whoever runs
  //

  /** The cache as the writes at the learning points make it. */
  function Writes(learns: seq<Learn>): (r: Cache)
  {
    if learns == [] then map[]
    else
      var before, last := Writes(learns[..|learns| - 1]), learns[|learns| - 1];
      if last.wrote then before[last.mac := last.port] else before
  }

  /** Right after a learning point the cache names that source on that port. */
  ghost predicate Confirmed(learns: seq<Learn>)
  {
    forall c :: 0 <= c < |learns| ==> ConfirmedAt(learns, c)
  }

  predicate ConfirmedAt(learns: seq<Learn>, c: nat)
    requires c < |learns|
  {
    Get(Writes(learns[..c + 1]), learns[c].mac) == Some(learns[c].port)
  }

  lemma {:induction false} ConfirmedPrefix(learns: seq<Learn>, n: nat)
    requires Confirmed(learns) && n <= |learns|
    ensures Confirmed(learns[..n])
  {
    forall d | 0 <= d < n ensures ConfirmedAt(learns[..n], d) {
      assert ConfirmedAt(learns, d) && learns[..n][..d + 1] == learns[..d + 1];
    }
  }

  /** The learning points are those of calls that have learned, one each, in the calls' own terms. */
  ghost predicate LearnsAreCalls(s: State)
  {
    && (forall c :: 0 <= c < |s.learns| ==> LearnOfCall(s, s.learns[c]))
    && (forall c, d :: 0 <= c < d < |s.learns| ==> s.learns[c].caller != s.learns[d].caller)
    && (forall i :: 0 <= i < |s.callers| && s.callers[i].HasLearned() ==> HasPoint(s.learns, i))
  }

  predicate LearnOfCall(s: State, l: Learn)
  {
    l.caller < |s.callers| && CarriedBy(s.callers[l.caller], l.mac, l.port) && s.callers[l.caller].HasLearned()
  }

  ghost predicate HasPoint(learns: seq<Learn>, i: nat)
  {
    exists c :: 0 <= c < |learns| && learns[c].caller == i
  }

  ghost predicate LearnInv(s: State)
  {
    s.cache == Writes(s.learns) && Confirmed(s.learns) && LearnsAreCalls(s)
  }

  lemma WritesSnoc(learns: seq<Learn>, l: Learn)
    ensures Writes(learns + [l]) == if l.wrote then Writes(learns)[l.mac := l.port] else Writes(learns)
    ensures Confirmed(learns) && Get(Writes(learns + [l]), l.mac) == Some(l.port) ==> Confirmed(learns + [l])
  {
    var more := learns + [l];
    assert more[..|learns|] == learns && more[..|learns| + 1] == more;
    if Confirmed(learns) && Get(Writes(more), l.mac) == Some(l.port) {
      forall c | 0 <= c < |more| ensures ConfirmedAt(more, c) {
        if c < |learns| {
          assert ConfirmedAt(learns, c) && more[..c + 1] == learns[..c + 1];
        }
      }
    }
  }

  lemma PointStays(learns: seq<Learn>, more: seq<Learn>, i: nat)
    requires learns <= more && HasPoint(learns, i)
    ensures HasPoint(more, i)
  {
    var c :| 0 <= c < |learns| && learns[c].caller == i;
    assert more[c].caller == i;
  }

  /** A step that is no learning point. */
  lemma OtherStepsKeepLearns(s: State, t: State)
    requires LearnInv(s) && t.cache == s.cache && t.learns == s.learns && Extends(s, t)
    requires forall i :: 0 <= i < |t.callers| ==>
               (t.callers[i].HasLearned() <==> i < |s.callers| && s.callers[i].HasLearned())
    ensures LearnInv(t)
  {
  }

  /** A call's learning point. */
  ghost predicate Learns(s: State, t: State, i: nat, l: Learn)
  {
    && i < |s.callers| == |t.callers| && Extends(s, t)
    && l.caller == i && CarriedBy(s.callers[i], l.mac, l.port)
    && t.learns == s.learns + [l]
    && (if l.wrote then t.cache == s.cache[l.mac := l.port]
        else t.cache == s.cache && Get(s.cache, l.mac) == Some(l.port))
    && !s.callers[i].HasLearned()
    && forall j :: 0 <= j < |t.callers| ==> (t.callers[j].HasLearned() <==> j == i || s.callers[j].HasLearned())
  }

  lemma PointsAreCalls(s: State, t: State, i: nat, l: Learn)
    requires LearnsAreCalls(s) && Learns(s, t, i, l)
    ensures LearnsAreCalls(t)
  {
    forall c | 0 <= c < |t.learns| ensures LearnOfCall(t, t.learns[c]) && (c < |s.learns| ==> t.learns[c].caller != i) {
      if c < |s.learns| {
        assert LearnOfCall(s, s.learns[c]);
      }
    }
    forall j | 0 <= j < |t.callers| && t.callers[j].HasLearned() ensures HasPoint(t.learns, j) {
      if j == i {
        assert t.learns[|s.learns|].caller == i;
      } else {
        PointStays(s.learns, t.learns, j);
      }
    }
  }

  lemma LearningKeeps(s: State, t: State, i: nat, l: Learn)
    requires LearnInv(s) && Learns(s, t, i, l)
    ensures LearnInv(t)
  {
    WritesSnoc(s.learns, l);
    PointsAreCalls(s, t, i, l);
  }

  lemma LearningStep(s: State, i: nat)
    requires i < |s.callers| && (s.callers[i].pc.Check? || s.callers[i].pc.Associate?)
    requires s.callers[i].pc.Check? ==> Get(s.cache, s.callers[i].pkt.frame.src) == Some(s.callers[i].port)
    ensures var c := s.callers[i]; Learns(s, CallerStep(s, i), i, Learn(i, c.pkt.frame.src, c.port, c.pc.Associate?))
  {
  }

  lemma OtherStep(s: State, i: nat)
    requires i < |s.callers| && !s.callers[i].pc.Associate?
    requires s.callers[i].pc.Check? ==> Get(s.cache, s.callers[i].pkt.frame.src) != Some(s.callers[i].port)
    ensures var t := CallerStep(s, i);
            && t.cache == s.cache && t.learns == s.learns && Extends(s, t) && |t.callers| == |s.callers|
            && forall j :: 0 <= j < |t.callers| ==> (t.callers[j].HasLearned() <==> s.callers[j].HasLearned())
  {
  }

  lemma NextKeepsLearns(s: State, a: Action)
    requires LearnInv(s)
    ensures LearnInv(Next(s, a)) && s.learns <= Next(s, a).learns && Extends(s, Next(s, a))
  {
    if a.Step? && a.caller < |s.callers| {
      hide LearnInv, CallerStep;
      var c := s.callers[a.caller];
      if c.pc.Associate? || (c.pc.Check? && Get(s.cache, c.pkt.frame.src) == Some(c.port)) {
        LearningStep(s, a.caller);
        LearningKeeps(s, CallerStep(s, a.caller), a.caller, Learn(a.caller, c.pkt.frame.src, c.port, c.pc.Associate?));
      } else {
        OtherStep(s, a.caller);
        OtherStepsKeepLearns(s, CallerStep(s, a.caller));
      }
    } else {
      OtherStepsKeepLearns(s, Next(s, a));
    }
  }

  lemma {:induction false} RunKeeps(s: State, actions: seq<Action>)
    requires Inv(s) && LearnInv(s)
    ensures Inv(Run(s, actions)) && LearnInv(Run(s, actions))
    ensures s.learns <= Run(s, actions).learns && Extends(s, Run(s, actions))
  {
    if actions != [] {
      var before := actions[..|actions| - 1];
      RunKeeps(s, before);
      NextKeepsInv(Run(s, before), actions[|actions| - 1]);
      NextKeepsLearns(Run(s, before), actions[|actions| - 1]);
    }
  }

  /** The port of the last write for `mac` after learning point `c`. */
  function LastWrite(learns: seq<Learn>, c: nat, mac: Mac): (r: Option<nat>)
  {
    var n := |learns| - 1;
    if n <= c then None
    else if learns[n].wrote && learns[n].mac == mac then Some(learns[n].port)
    else LastWrite(learns[..n], c, mac)
  }

  lemma {:induction false} NotOverwrittenIff(learns: seq<Learn>, c: nat)
    requires Confirmed(learns) && c < |learns|
    ensures Get(Writes(learns), learns[c].mac) == Some(learns[c].port) <==>
            LastWrite(learns, c, learns[c].mac) in {None, Some(learns[c].port)}
  {
    var n := |learns| - 1;
    if c < n {
      ConfirmedPrefix(learns, n);
      NotOverwrittenIff(learns[..n], c);
    } else {
      assert ConfirmedAt(learns, c) && learns[..c + 1] == learns;
    }
  }

  /**
   In every run, a call's source is cached on the call's port exactly when the last write for
   that source after the call's learning point, if there is any, is by a call on that port.
   */
  lemma CachedIffNotOverwritten(actions: seq<Action>, s: State, c: nat)
    requires s == Run(INIT, actions) && c < |s.learns|
    ensures Get(s.cache, s.learns[c].mac) == Some(s.learns[c].port) <==>
            LastWrite(s.learns, c, s.learns[c].mac) in {None, Some(s.learns[c].port)}
  {
    InitKeeps();
    RunKeeps(INIT, actions);
    NotOverwrittenIff(s.learns, c);
  }

  lemma InitKeeps()
    ensures Inv(INIT) && LearnInv(INIT)
  {
  }

  /** Learning point `c` put `mac` on `port`, and no later one puts it elsewhere. */
  ghost predicate StaysLearned(learns: seq<Learn>, c: nat, mac: Mac, port: nat)
  {
    && c < |learns| && learns[c].mac == mac && learns[c].port == port
    && forall j :: c < j < |learns| && learns[j].mac == mac ==> learns[j].port == port
  }

  lemma {:induction false} StaysWritten(learns: seq<Learn>, c: nat, mac: Mac, port: nat)
    requires Confirmed(learns) && StaysLearned(learns, c, mac, port)
    ensures Get(Writes(learns), mac) == Some(port)
  {
    var n := |learns| - 1;
    if c < n {
      ConfirmedPrefix(learns, n);
      assert StaysLearned(learns[..n], c, mac, port);
      StaysWritten(learns[..n], c, mac, port);
    } else {
      assert ConfirmedAt(learns, c) && learns[..c + 1] == learns;
    }
  }

  lemma StaysCached(s: State, c: nat, mac: Mac, port: nat)
    requires LearnInv(s) && StaysLearned(s.learns, c, mac, port)
    ensures Get(s.cache, mac) == Some(port)
  {
    StaysWritten(s.learns, c, mac, port);
  }

  /**
   What a caller can see to: once a call has learned its source, the cache names that source
   on the call's port for as long as every call carrying the source from another port had
   learned before this one started.
   */
  lemma LastCallIsCached(before: seq<Action>, port: nat, bytes: seq<u8>, after: seq<Action>,
                         s0: State, s: State, k: nat, mac: Mac)
    requires s0 == Run(INIT, before) && s == Run(Next(s0, Start(port, bytes)), after)
    requires k == |s0.callers| < |s.callers| && CarriedBy(s.callers[k], mac, port) && s.callers[k].HasLearned()
    requires forall i :: 0 <= i < |s.callers| && s.callers[i].pkt.frame.src == mac && s.callers[i].port != port ==>
               i < k && s0.callers[i].HasLearned()
    ensures Get(s.cache, mac) == Some(port)
  {
    InitKeeps();
    RunKeeps(INIT, before);
    var s1 := Next(s0, Start(port, bytes));
    NextKeepsInv(s0, Start(port, bytes));
    NextKeepsLearns(s0, Start(port, bytes));
    RunKeeps(s1, after);
    var c := LearnedPoint(s0, s, k, mac, port);
    StaysCached(s, c, mac, port);
  }

  lemma LearnedPoint(s0: State, s: State, k: nat, mac: Mac, port: nat) returns (c: nat)
    requires LearnInv(s0) && LearnInv(s) && s0.learns <= s.learns
    requires k == |s0.callers| < |s.callers| && CarriedBy(s.callers[k], mac, port) && s.callers[k].HasLearned()
    requires forall i :: 0 <= i < |s.callers| && s.callers[i].pkt.frame.src == mac && s.callers[i].port != port ==>
               i < k && s0.callers[i].HasLearned()
    ensures StaysLearned(s.learns, c, mac, port)
  {
    assert HasPoint(s.learns, k);
    c :| 0 <= c < |s.learns| && s.learns[c].caller == k;
    assert LearnOfCall(s, s.learns[c]);
    assert c >= |s0.learns| by {
      assert forall e :: 0 <= e < |s0.learns| ==> LearnOfCall(s0, s0.learns[e]);
    }
    forall j | c < j < |s.learns| && s.learns[j].mac == mac ensures s.learns[j].port == port {
      assert LearnOfCall(s, s.learns[j]);
      NewPoint(s0, s, j);
    }
  }

  lemma NewPoint(s0: State, s: State, j: nat)
    requires LearnsAreCalls(s0) && LearnsAreCalls(s) && s0.learns <= s.learns && |s0.learns| <= j < |s.learns|
    ensures s.learns[j].caller < |s0.callers| ==> !s0.callers[s.learns[j].caller].HasLearned()
  {
    forall e | 0 <= e < |s0.learns| ensures s0.learns[e].caller != s.learns[j].caller {
      assert s.learns[e] == s0.learns[e];
    }
  }

  //
  // Delivery to a settled MAC
  //

  /** A call for a unicast destination sends to `port` or has not looked it up yet. */
  predicate SendsOnlyTo(c: Caller, port: nat)
  {
    !c.pc.Flood? && (c.pc.Send? ==> c.pc.target == port) && (c.pc.Done? ==> c.sent == [port])
  }

  lemma StepSendsOnlyTo(s: State, a: Action, mac: Mac, port: nat, k: nat)
    requires Inv(s) && Get(s.cache, mac) == Some(port) && mac != BROADCAST && k < |Next(s, a).callers|
    requires Next(s, a).callers[k].pkt.frame.dst == mac
    requires k < |s.callers| ==> s.callers[k].pkt.frame.dst == mac && SendsOnlyTo(s.callers[k], port)
    ensures SendsOnlyTo(Next(s, a).callers[k], port)
  {
    if a.Step? && a.caller < |s.callers| {
      hide CallerStep, Seen, SendsOnlyTo;
      if a.caller == k {
        assert CallerInv(s, s.callers[k]);
        MoverSendsOnlyTo(s, mac, port, k);
      } else {
        OthersStay(s, a.caller, k);
      }
    } else {
      ArrivalAdds(s, a, Next(s, a));
      hide Next, Inv;
    }
  }

  lemma MoverSendsOnlyTo(s: State, mac: Mac, port: nat, k: nat)
    requires k < |s.callers| && CallerInv(s, s.callers[k]) && s.callers[k].pkt.frame.dst == mac && mac != BROADCAST
    requires Get(s.cache, mac) == Some(port) && port < s.nports && SendsOnlyTo(s.callers[k], port)
    ensures SendsOnlyTo(CallerStep(s, k).callers[k], port)
  {
    hide Seen, Delivered, AllBut;
  }

  /**
   However calls interleave: a frame for a MAC that has settled on a port, in a call that has
   not looked it up before, is enqueued on that port exactly once and nowhere else.
   */
  lemma {:induction false} SettledDelivers(s: State, actions: seq<Action>, t: State, c: nat, mac: Mac, port: nat,
                                           k: nat)
    requires Inv(s) && LearnInv(s) && t == Run(s, actions) && c < |s.learns|
    requires StaysLearned(t.learns, c, mac, port) && mac != BROADCAST
    requires k < |t.callers| && t.callers[k].pkt.frame.dst == mac
    requires k < |s.callers| ==> SendsOnlyTo(s.callers[k], port)
    ensures SendsOnlyTo(t.callers[k], port)
    ensures t.callers[k].pc.Done? ==> Enqueued(t.log, k) == [port]
  {
    RunKeeps(s, actions);
    if actions != [] {
      var u := Run(s, actions[..|actions| - 1]);
      var a := actions[|actions| - 1];
      RunKeeps(s, actions[..|actions| - 1]);
      NextKeepsLearns(u, a);
      assert StaysLearned(u.learns, c, mac, port);
      StaysCached(u, c, mac, port);
      if k < |u.callers| {
        SettledDelivers(s, actions[..|actions| - 1], u, c, mac, port, k);
      }
      StepSendsOnlyTo(u, a, mac, port, k);
    }
  }

  //
  // Broadcasts
  //

  /** A call is past the point where it took the ports lock. */
  predicate HasPorts(c: Caller)
  {
    c.HoldsPorts() || c.pc.Done?
  }

  /** Calls that started in or after `s` saw at least the ports that `s` has. */
  lemma {:induction false} WidthCoversStart(s: State, actions: seq<Action>, k: nat)
    requires |s.callers| <= k < |Run(s, actions).callers|
    ensures s.nports <= Run(s, actions).nports
    ensures var c := Run(s, actions).callers[k]; HasPorts(c) ==> s.nports <= c.width
  {
    var n := |actions| - 1;
    if actions != [] {
      var u := Run(s, actions[..n]);
      hide Next, Run;
      LastAction(s, actions);
      PortsGrow(s, actions[..n]);
      StepWidth(u, actions[n], k);
      if k < |u.callers| {
        WidthCoversStart(s, actions[..n], k);
      }
    }
  }

  lemma LastAction(s: State, actions: seq<Action>)
    requires actions != []
    ensures Run(s, actions) == Next(Run(s, actions[..|actions| - 1]), actions[|actions| - 1])
  {
  }

  lemma {:induction false} PortsGrow(s: State, actions: seq<Action>)
    ensures s.nports <= Run(s, actions).nports
  {
    if actions != [] {
      PortsGrow(s, actions[..|actions| - 1]);
    }
  }

  lemma StepWidth(u: State, a: Action, k: nat)
    requires k < |Next(u, a).callers|
    ensures u.nports <= Next(u, a).nports
    ensures var c := Next(u, a).callers[k];
            HasPorts(c) && c.width != u.nports ==>
              k < |u.callers| && HasPorts(u.callers[k]) && c.width == u.callers[k].width
  {
    if a.Step? && a.caller < |u.callers| {
      hide CallerStep, HasPorts;
      if a.caller == k {
        MoverWidth(u, k);
      } else {
        OthersStay(u, a.caller, k);
      }
    } else {
      ArrivalAdds(u, a, Next(u, a));
      hide Next;
    }
  }

  lemma MoverWidth(u: State, k: nat)
    requires k < |u.callers|
    ensures CallerStep(u, k).nports == u.nports && |CallerStep(u, k).callers| == |u.callers|
    ensures var c := CallerStep(u, k).callers[k];
            HasPorts(c) && c.width != u.nports ==> HasPorts(u.callers[k]) && c.width == u.callers[k].width
  {
  }

  /** A finished broadcast was enqueued once on every port connected when its call started, but the sender's. */
  lemma BroadcastReachesAll(s: State, actions: seq<Action>, t: State, k: nat, x: nat)
    requires Inv(s) && LearnInv(s) && t == Run(s, actions) && |s.callers| <= k < |t.callers|
    requires t.callers[k].pc.Done? && t.callers[k].pkt.frame.dst == BROADCAST
    ensures x < s.nports && x != t.callers[k].port ==> multiset(Enqueued(t.log, k))[x] == 1
    ensures x == t.callers[k].port || x >= t.nports ==> x !in Enqueued(t.log, k)
  {
    RunKeeps(s, actions);
    WidthCoversStart(s, actions, k);
    assert CallerInv(t, t.callers[k]);
    BroadcastOnceEach(t.callers[k].width, t.callers[k].port, x);
  }

  //
  // One caller at a time
  //

  /** `n` steps of call `i` with nobody else running. */
  function Solo(s: State, i: nat, n: nat): (r: State)
    requires i < |s.callers|
    ensures |r.callers| == |s.callers|
    decreases n
  {
    if n == 0 then s else Solo(CallerStep(s, i), i, n - 1)
  }

  /** The call has ended and done what the sequential switch does with cache `cache`. */
  ghost predicate EndsAs(t: State, i: nat, c: Caller, cache: Cache, sent: seq<nat>)
  {
    i < |t.callers| && t.cache == cache && t.callers[i].pkt == c.pkt && t.callers[i].pc.Done?
    && t.callers[i].sent == sent
  }

  lemma {:induction false} SoloDone(s: State, i: nat, n: nat)
    requires i < |s.callers| && s.callers[i].pc.Done?
    ensures Solo(s, i, n) == s
    decreases n
  {
    if n > 0 {
      SoloDone(s, i, n - 1);
    }
  }

  lemma {:induction false} SoloFlood(s: State, i: nat, k: nat, n: nat)
    requires i < |s.callers| && k <= s.nports < k + n
    requires s.callers[i].pc == Flood(k) && s.callers[i].sent == AllBut(k, s.callers[i].port)
    ensures EndsAs(Solo(s, i, n), i, s.callers[i], s.cache, AllBut(s.nports, s.callers[i].port))
    decreases n
  {
    if k == s.nports {
      SoloDone(CallerStep(s, i), i, n - 1);
    } else {
      SoloFlood(CallerStep(s, i), i, k + 1, n - 1);
    }
  }

  lemma SoloLookup(s: State, i: nat, n: nat)
    requires i < |s.callers| && n >= 2 && s.callers[i].pc.Lookup? && s.callers[i].sent == []
    requires s.callers[i].pkt.frame.dst != BROADCAST
    ensures EndsAs(Solo(s, i, n), i, s.callers[i], s.cache,
                   Targets(s.cache, s.nports, s.callers[i].port, s.callers[i].pkt.frame.dst))
  {
    var t := CallerStep(s, i);
    if t.callers[i].pc.Done? {
      SoloDone(t, i, n - 1);
    } else {
      SoloSend(t, i, n - 1);
    }
  }

  lemma SoloSend(s: State, i: nat, n: nat)
    requires i < |s.callers| && n >= 1 && s.callers[i].pc.Send? && s.callers[i].sent == []
    ensures var target := s.callers[i].pc.target;
            EndsAs(Solo(s, i, n), i, s.callers[i], s.cache, if target < s.nports then [target] else [])
  {
    SoloDone(CallerStep(s, i), i, n - 1);
  }

  lemma SoloAcquire(s: State, i: nat, n: nat)
    requires i < |s.callers| && n >= s.nports + 3 && s.callers[i].pc.Acquire? && s.callers[i].sent == []
    ensures EndsAs(Solo(s, i, n), i, s.callers[i], s.cache,
                   Targets(s.cache, s.nports, s.callers[i].port, s.callers[i].pkt.frame.dst))
  {
    var t := CallerStep(s, i);
    if s.callers[i].pkt.frame.dst == BROADCAST {
      SoloFlood(t, i, 0, n - 1);
    } else {
      SoloLookup(t, i, n - 1);
    }
  }

  lemma SoloCheck(s: State, i: nat, n: nat)
    requires i < |s.callers| && n >= s.nports + 5 && s.callers[i].pc.Check? && s.callers[i].sent == []
    ensures var cache := s.cache[s.callers[i].pkt.frame.src := s.callers[i].port];
            EndsAs(Solo(s, i, n), i, s.callers[i], cache,
                   Targets(cache, s.nports, s.callers[i].port, s.callers[i].pkt.frame.dst))
  {
    var c := s.callers[i];
    var t := CallerStep(s, i);
    if t.callers[i].pc.Acquire? {
      assert s.cache == s.cache[c.pkt.frame.src := c.port];
      SoloAcquire(t, i, n - 1);
    } else {
      SoloAcquire(CallerStep(t, i), i, n - 2);
    }
  }

  /** A call that runs alone does exactly what `Switch.Process` says. */
  lemma SoloCallIsProcess(s: State, port: nat, bytes: seq<u8>)
    requires port < s.nports && ExtractFrame(bytes).Some?
    ensures var started := Next(s, Start(port, bytes));
            var i := |s.callers|;
            && |started.callers| == i + 1
            && var t := Solo(started, i, s.nports + 5);
               && t.callers[i].pc.Done?
               && Process(s.cache, s.nports, port, bytes) == Processed(t.cache, t.callers[i].pkt, t.callers[i].sent)
  {
    SoloCheck(Next(s, Start(port, bytes)), |s.callers|, s.nports + 5);
  }

  function Race(bytes: seq<u8>): (r: seq<Action>)
  {
    [Connect, Connect, Start(0, bytes), Step(0), Step(0), Start(1, bytes), Step(1), Start(0, bytes), Step(2), Step(1)]
  }

  /**
   Run concurrently, the cache need not be the last port seen: a call that found a stale
   entry overwrites what a later frame of the same MAC has just confirmed.
   */
  lemma RaceLeavesStalePort(pkt: EthernetPacket)
    ensures var s := Run(INIT, Race(FrameBytes(pkt.frame) + pkt.payload));
            && |s.callers| == 3 && s.callers[2] == Caller(0, pkt, Acquire, 0, [])
            && Get(s.cache, pkt.frame.src) == Some(1)
  {
    var a := Race(FrameBytes(pkt.frame) + pkt.payload);
    hide Run, ExtractFrame, FrameBytes;
    RaceMiddle(pkt, a);
    RunStep(INIT, a, 7);
    RunStep(INIT, a, 8);
    var c0 := Caller(0, pkt, Acquire, 0, []);
    assert Run(INIT, a[..9]) == State(2, map[pkt.frame.src := 0], [c0, Caller(1, pkt, Associate, 0, []), c0], [],
                                        [Learn(0, pkt.frame.src, 0, true), Learn(2, pkt.frame.src, 0, false)]);
    RunStep(INIT, a, 9);
    assert a[..10] == a;
  }

  lemma RaceMiddle(pkt: EthernetPacket, a: seq<Action>)
    requires a == Race(FrameBytes(pkt.frame) + pkt.payload)
    ensures Run(INIT, a[..7]) == State(2, map[pkt.frame.src := 0],
                                       [Caller(0, pkt, Acquire, 0, []), Caller(1, pkt, Associate, 0, [])],
                                       [], [Learn(0, pkt.frame.src, 0, true)])
    ensures ExtractFrame(FrameBytes(pkt.frame) + pkt.payload) == Some(pkt)
  {
    hide Run, ExtractFrame, FrameBytes;
    RaceSetup(pkt, a);
    RunStep(INIT, a, 5);
    RunStep(INIT, a, 6);
  }

  lemma RaceSetup(pkt: EthernetPacket, a: seq<Action>)
    requires a == Race(FrameBytes(pkt.frame) + pkt.payload)
    ensures Run(INIT, a[..5])
            == State(2, map[pkt.frame.src := 0], [Caller(0, pkt, Acquire, 0, [])], [],
                     [Learn(0, pkt.frame.src, 0, true)])
    ensures ExtractFrame(FrameBytes(pkt.frame) + pkt.payload) == Some(pkt)
  {
    hide Run;
    PrintThenExtract(pkt);
    TwoConnect(a);
    RunStep(INIT, a, 2);
    RunStep(INIT, a, 3);
    assert Run(INIT, a[..4]) == State(2, map[], [Caller(0, pkt, Associate, 0, [])], [], []);
    RunStep(INIT, a, 4);
  }

  lemma TwoConnect(a: seq<Action>)
    requires |a| >= 2 && a[0] == Connect && a[1] == Connect
    ensures Run(INIT, a[..2]) == State(2, map[], [], [], [])
  {
    assert Run(INIT, a[..0]) == INIT;
    RunStep(INIT, a, 0);
    RunStep(INIT, a, 1);
  }

  lemma RunStep(s: State, actions: seq<Action>, n: nat)
    requires n < |actions|
    ensures Run(s, actions[..n + 1]) == Next(Run(s, actions[..n]), actions[n])
  {
    assert actions[..n + 1][..n] == actions[..n];
  }
}
