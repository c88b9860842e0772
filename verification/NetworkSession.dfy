/** NetworkSession: the object that ties channels, negotiation and deferred candidates together, and
    the tasks it posts to the signal thread. */
module NetworkSessions {
  import opened Common
  import opened Sequences
  import opened DeferredCandidates
  import opened SessionChannels
  import opened SessionHistory
  import opened SessionNegotiation

  // ---------------------------------------------------------------- posted tasks

  /** The channels, and the tasks posted to the signal thread but not yet run there. */
  datatype Mailbox = Mailbox(channels: Transport, pending: seq<Task>)

  /** `Post` is a call made while the signal thread exists, `RunNext` the signal thread taking its
      next task, and `Callback` a data-channel callback, which runs there at once. */
  datatype Event = Post(task: Task) | RunNext | Callback(task: Task)

  predicate Proper(e: Event) {
    (e.Post? ==> !e.task.Refreshes()) && (e.Callback? ==> e.task.Refreshes())
  }

  function OnEvent(v: Routing, m: Mailbox, e: Event): Mailbox {
    match e
    case Post(task) => m.(pending := m.pending + [task])
    case Callback(task) => m.(channels := OnTask(v, m.channels, task))
    case RunNext =>
      if m.pending == [] then m
      else Mailbox(OnTask(v, m.channels, m.pending[0]), m.pending[1..])
  }

  function RunEvents(v: Routing, m: Mailbox, es: seq<Event>): Mailbox
    decreases |es|
  {
    if es == [] then m else RunEvents(v, OnEvent(v, m, es[0]), es[1..])
  }

  /** The tasks that the signal thread has run by the end of the events, in order. */
  function Executed(pending: seq<Task>, es: seq<Event>): seq<Task>
    decreases |es|
  {
    if es == [] then []
    else
      match es[0]
      case Post(task) => Executed(pending + [task], es[1..])
      case Callback(task) => [task] + Executed(pending, es[1..])
      case RunNext =>
        if pending == [] then Executed(pending, es[1..])
        else [pending[0]] + Executed(pending[1..], es[1..])
  }

  function Posted(es: seq<Event>): seq<Task> {
    if es == [] then [] else (if es[0].Post? then [es[0].task] else []) + Posted(es[1..])
  }

  lemma {:induction false} EventsRunTasks(v: Routing, m: Mailbox, es: seq<Event>)
    ensures RunEvents(v, m, es).channels == RunTasks(v, m.channels, Executed(m.pending, es))
    decreases |es|
  {
    if es != [] {
      EventsRunTasks(v, OnEvent(v, m, es[0]), es[1..]);
      if es[0].Callback? || (es[0].RunNext? && m.pending != []) {
        var x := Executed(m.pending, es);
        assert x[1..] == Executed(OnEvent(v, m, es[0]).pending, es[1..]);
      }
    }
  }

  /** Every packet posted has been executed or is still pending, in posting order. */
  lemma {:induction false} PostedIsExecutedOrPending(v: Routing, m: Mailbox, es: seq<Event>, kind: Kind)
    requires forall k :: 0 <= k < |es| ==> Proper(es[k])
    ensures Submitted(Executed(m.pending, es), kind) + Submitted(RunEvents(v, m, es).pending, kind)
            == Submitted(m.pending, kind) + Submitted(Posted(es), kind)
    decreases |es|
  {
    if es == [] {
      Nothing(Submitted(m.pending, kind));
    } else {
      var e, rest, m' := es[0], es[1..], OnEvent(v, m, es[0]);
      var left := Submitted(RunEvents(v, m, es).pending, kind);
      PostedIsExecutedOrPending(v, m', rest, kind);
      match e
      case Post(task) =>
        SubmittedConcat(m.pending, [task], kind);
        SubmittedConcat([task], Posted(rest), kind);
        Associative(Submitted(m.pending, kind), Submitted([task], kind), Submitted(Posted(rest), kind));
      case Callback(task) =>
        SubmittedConcat([task], Executed(m.pending, rest), kind);
        SubmittedOne(task, kind);
        Nothing(Submitted(Executed(m.pending, rest), kind));
        Nothing(Posted(rest));
      case RunNext =>
        Nothing(Posted(rest));
        if m.pending != [] {
          var first, later := m.pending[0], m.pending[1..];
          SubmittedConcat([first], Executed(later, rest), kind);
          SubmittedOne(first, kind);
          Associative(SubmittedBy(first, kind), Submitted(Executed(later, rest), kind), left);
          Associative(SubmittedBy(first, kind), Submitted(later, kind), Submitted(Posted(rest), kind));
        }
    }
  }

  /** The FIFO law from the caller's side: over any interleaving of posts, callbacks and the signal
      thread, what was handed on, then the queue, then what is pending, are the reliable packets
      posted, in order.  Of the unreliable ones those are missing that were executed before the last
      callback that found no unreliable channel, and no others. */
  lemma PostedFifo(v: Routing, es: seq<Event>)
    requires forall k :: 0 <= k < |es| ==> Proper(es[k])
    ensures var m := RunEvents(v, Mailbox(INITIALISED_OUTGOING, []), es);
            var t := m.channels;
            && (v.AsIntended? || NullFree(UNCONNECTED, Executed([], es)) ==>
                  && Handed(t.log, Reliable) + t.reliableQueue + Submitted(m.pending, Reliable)
                     == Submitted(Posted(es), Reliable)
                  && ThrownAway(Executed([], es)) + (Handed(t.log, Unreliable) + t.unreliableQueue)
                     + Submitted(m.pending, Unreliable) == Submitted(Posted(es), Unreliable))
            && Subseq(Handed(t.log, Unreliable) + t.unreliableQueue + Submitted(m.pending, Unreliable),
                      Submitted(Posted(es), Unreliable))
  {
    var start := Mailbox(INITIALISED_OUTGOING, []);
    var m := RunEvents(v, start, es);
    EventsRunTasks(v, start, es);
    ReliableFifo(v, Executed([], es));
    if v.AsIntended? || NullFree(UNCONNECTED, Executed([], es)) { UnreliableExactly(v, Executed([], es)); }
    PostedIsExecutedOrPending(v, start, es, Reliable);
    PostedIsExecutedOrPending(v, start, es, Unreliable);
    Nothing(Submitted(Posted(es), Reliable));
    Nothing(Submitted(Posted(es), Unreliable));
    SubseqConcat(Handed(m.channels.log, Unreliable) + m.channels.unreliableQueue,
                 Submitted(Executed([], es), Unreliable), Submitted(m.pending, Unreliable));
  }

  // ---------------------------------------------------------------- statistics requests

  datatype Stats = Stats(last: Time, inProgress: bool)

  /** CheckUpdateStats asks for statistics every two seconds, one request at a time. */
  predicate AsksAt(s: Stats, now: Time) { WholeUnits(now - s.last, MILLISECOND) >= 2000 && !s.inProgress }

  function Checked(s: Stats, now: Time): Stats { if AsksAt(s, now) then Stats(now, true) else s }

  /** A request is due two seconds after the time stamp. */
  predicate Due(s: Stats, now: Time) { now - s.last >= 2 * SECOND }

  lemma AsksMeans(s: Stats, now: Time)
    ensures AsksAt(s, now) <==> Due(s, now) && !s.inProgress
  {
  }

  function RunChecks(s: Stats, times: seq<Time>): Stats
    decreases |times|
  {
    if times == [] then s else RunChecks(Checked(s, times[0]), times[1..])
  }

  /** How many of the checks at these times ask. */
  function Asked(s: Stats, times: seq<Time>): nat
    decreases |times|
  {
    if times == [] then 0 else (if AsksAt(s, times[0]) then 1 else 0) + Asked(Checked(s, times[0]), times[1..])
  }

  lemma {:induction false} NeverAskedAgain(s: Stats, times: seq<Time>)
    requires s.inProgress
    ensures Asked(s, times) == 0 && RunChecks(s, times) == s
    decreases |times|
  {
    if times != [] { NeverAskedAgain(s, times[1..]); }
  }

  /** Nothing ever ends a request: a session asks at most once, at the first check that comes two
      seconds after its time stamp, and only if no request was in progress to begin with. */
  lemma {:induction false} AskedAtMostOnce(s: Stats, times: seq<Time>, k: nat)
    requires k <= |times| && forall j :: 0 <= j < k ==> !Due(s, times[j])
    requires k < |times| ==> Due(s, times[k])
    ensures Asked(s, times) == if k < |times| && !s.inProgress then 1 else 0
    ensures RunChecks(s, times) == if k < |times| && !s.inProgress then Stats(times[k], true) else s
    decreases |times|
  {
    if times != [] {
      AsksMeans(s, times[0]);
      if s.inProgress {
        NeverAskedAgain(s, times);
      } else if k == 0 {
        NeverAskedAgain(Checked(s, times[0]), times[1..]);
      } else {
        AskedAtMostOnce(s, times[1..], k - 1);
      }
    }
  }

  // ---------------------------------------------------------------- the class

  class NetworkSession {
    var hasPeer: bool
    var reliableUp: bool
    var reliableState: DataState
    var reliablePackets: seq<Packet>
    var unreliableUp: bool
    var unreliableState: DataState
    var unreliablePackets: seq<Packet>
    ghost var log: seq<Handoff>
    ghost var opens: nat
    /** A null pointer was dereferenced; nothing runs any more. */
    var crashed: bool
    var pending: seq<Task>
    var negotiationState: Phase
    var negotiationTimer: Time
    var isOutgoing: bool
    var connectionStat: bv32
    var iceConnectionState: bv32
    var lastSessionActivity: Time
    var deferredIceCandidates: seq<Candidate>
    ghost var offered: seq<Candidate>
    var lastStatsUpdate: Time
    var statsRequestInProgress: bool
    /** The errors that initialisation passed to NotifyOnSessionClose. */
    ghost var initErrors: seq<bv8>

    ghost function Channels(): Transport
      reads this
    {
      Transport(hasPeer, reliableUp, reliableState, reliablePackets,
                unreliableUp, unreliableState, unreliablePackets, log, opens, crashed)
    }

    ghost function Negotiating(): Negotiation
      reads this
    {
      Negotiation(negotiationState, negotiationTimer, isOutgoing, connectionStat, iceConnectionState)
    }

    ghost function Statistics(): Stats
      reads this
    {
      Stats(lastStatsUpdate, statsRequestInProgress)
    }

    /** The session as its initialisation task leaves it, if there is a signal thread to run it;
        without a peer connection that task reports the error and then dereferences a null pointer.
        The two data channels are created, reported if that failed, and dropped.  `before`, `stats`,
        `r` and `u` are what the uninitialised fields hold. */
    constructor InitializeOutgoing(thread: bool, created: bool, reliableCreated: bool, unreliableCreated: bool,
                                   now: Time, before: Negotiation, stats: Stats, r: DataState, u: DataState)
      ensures Channels() ==
                if thread then INITIALISED_OUTGOING.(hasPeer := created, crashed := !created)
                else Peerless(r, u)
      ensures Negotiating() == Initialised(true, now, before) && lastSessionActivity == now
      ensures initErrors == if !thread then []
                            else if !created then [ERROR_CREATE_PEER]
                            else (if reliableCreated then [] else [ERROR_CREATE_PEER])
                                 + (if unreliableCreated then [] else [ERROR_CREATE_PEER])
      ensures pending == [] && deferredIceCandidates == [] && offered == [] && Statistics() == stats
    {
      hasPeer, log, opens, crashed, pending := thread && created, [], 0, thread && !created, [];
      reliableUp, reliableState, reliablePackets := false, if thread then Closed else r, [];
      unreliableUp, unreliableState, unreliablePackets := false, if thread then Closed else u, [];
      negotiationState, negotiationTimer, isOutgoing := WaitingForResponse, now, true;
      connectionStat, iceConnectionState, lastSessionActivity := before.stat, before.ice, now;
      lastStatsUpdate, statsRequestInProgress := stats.last, stats.inProgress;
      deferredIceCandidates, offered, initErrors := [], [], [];
      new;
      if thread && !created {
        initErrors := [ERROR_CREATE_PEER];
      }
      if thread && created && !reliableCreated {
        initErrors := initErrors + [ERROR_CREATE_PEER];
      }
      if thread && created && !unreliableCreated {
        initErrors := initErrors + [ERROR_CREATE_PEER];
      }
    }

    /** Without a peer connection it reports the error and returns before the negotiation starts;
        with one it moves the pointer out of its field again. */
    constructor InitializeIncoming(created: bool, now: Time, before: Negotiation, stats: Stats,
                                   r: DataState, u: DataState)
      ensures Channels() == Peerless(r, u)
      ensures Negotiating() == if created then Initialised(false, now, before) else before.(outgoing := false)
      ensures initErrors == if created then [] else [ERROR_CREATE_PEER]
      ensures pending == [] && deferredIceCandidates == [] && offered == [] && lastSessionActivity == now
      ensures Statistics() == stats
    {
      hasPeer, log, opens, crashed, pending := false, [], 0, false, [];
      reliableUp, reliableState, reliablePackets := false, r, [];
      unreliableUp, unreliableState, unreliablePackets := false, u, [];
      negotiationState := if created then WaitingForAccept else before.phase;
      negotiationTimer := if created then now else before.timer;
      isOutgoing, connectionStat, iceConnectionState, lastSessionActivity := false, before.stat, before.ice, now;
      lastStatsUpdate, statsRequestInProgress := stats.last, stats.inProgress;
      deferredIceCandidates, offered, initErrors := [], [], if created then [] else [ERROR_CREATE_PEER];
    }

    /** Marks activity and posts the packet; without a signal thread it is dropped. */
    method SendPacket(kind: Kind, packet: Packet, now: Time, thread: bool)
      modifies this`lastSessionActivity, this`pending
      ensures lastSessionActivity == now
      ensures pending == if thread then old(pending) + [Send(kind, packet)] else old(pending)
    {
      lastSessionActivity := now;
      if thread {
        pending := pending + [Send(kind, packet)];
      }
    }

    /** What a posted packet does when its turn comes. */
    method RunSend(kind: Kind, packet: Packet)
      requires !crashed
      modifies this`log, this`reliablePackets, this`unreliablePackets
      ensures Channels() == OnSend(old(Channels()), kind, packet)
    {
      if hasPeer {
        if kind == Reliable {
          if !reliableUp || reliableState != Open {
            reliablePackets := reliablePackets + [packet];
            return;
          }
          log := log + [Handoff(Reliable, Reliable, packet)];
          return;
        }
        if unreliableUp && unreliableState == Open {
          log := log + [Handoff(Unreliable, Unreliable, packet)];
          return;
        }
        unreliablePackets := unreliablePackets + [packet];
      }
    }

    /** The signal thread takes the next posted task, if any. */
    method RunNextTask(v: Routing)
      requires forall k :: 0 <= k < |pending| ==> !pending[k].Refreshes()
      modifies this`log, this`reliablePackets, this`unreliablePackets, this`pending
      ensures Mailbox(Channels(), pending) == OnEvent(v, old(Mailbox(Channels(), pending)), RunNext)
    {
      if pending != [] {
        var task := pending[0];
        pending := pending[1..];
        if task.Send? && !crashed {
          RunSend(task.kind, task.packet);
        }
      }
    }

    /** The first loop of CheckSendDeferredData. */
    method SendDeferredReliable()
      modifies this`log, this`reliablePackets
      ensures Channels() == FlushReliable(old(Channels()))
    {
      if reliableUp {
        for i := 0 to |reliablePackets|
          invariant reliablePackets == old(reliablePackets)
          invariant log == old(log) + Tagged(Reliable, Reliable, reliablePackets[..i])
        {
          log := log + [Handoff(Reliable, Reliable, reliablePackets[i])];
          TaggedPush(old(log), Reliable, Reliable, reliablePackets, i);
        }
        assert reliablePackets[..|reliablePackets|] == reliablePackets;
        reliablePackets := [];
      }
    }

    /** The second one, which sends on the channel `v` says. */
    method SendDeferredUnreliable(v: Routing)
      requires !crashed
      modifies this`log, this`unreliablePackets, this`crashed
      ensures Channels() == FlushUnreliable(v, old(Channels()))
    {
      if unreliableUp {
        var channel := if v == AsIntended then Unreliable else Reliable;
        for i := 0 to |unreliablePackets|
          invariant unreliablePackets == old(unreliablePackets) && !crashed
          invariant log == old(log) + Tagged(channel, Unreliable, unreliablePackets[..i])
          invariant i > 0 ==> channel == Unreliable || reliableUp
        {
          if channel == Reliable && !reliableUp {
            crashed := true;
            Nothing(old(log));
            return;
          }
          log := log + [Handoff(channel, Unreliable, unreliablePackets[i])];
          TaggedPush(old(log), channel, Unreliable, unreliablePackets, i);
        }
        assert unreliablePackets[..|unreliablePackets|] == unreliablePackets;
      }
      unreliablePackets := [];
    }

    method CheckSendDeferredData(v: Routing)
      requires !crashed
      modifies this`log, this`reliablePackets, this`unreliablePackets, this`crashed
      ensures Channels() == Flush(v, old(Channels()))
    {
      SendDeferredReliable();
      SendDeferredUnreliable(v);
    }

    static lemma TaggedPush(log: seq<Handoff>, channel: Kind, kind: Kind, q: seq<Packet>, i: nat)
      requires i < |q|
      ensures log + Tagged(channel, kind, q[..i]) + [Handoff(channel, kind, q[i])]
              == log + Tagged(channel, kind, q[..i + 1])
    {
      assert q[..i + 1][..i] == q[..i];
      Associative(log, Tagged(channel, kind, q[..i]), [Handoff(channel, kind, q[i])]);
    }

    method UpdateDataChannelStates(r: DataState, u: DataState)
      modifies this`reliableState, this`unreliableState, this`opens
      ensures Channels() == UpdateStates(old(Channels()), r, u)
    {
      reliableState := if reliableUp then r else Closed;
      unreliableState := if unreliableUp then u else Closed;
      if reliableState == Open && unreliableState == Open {
        opens := opens + 1;
      }
    }

    method Attach(name: string)
      modifies this`reliableUp, this`unreliableUp
      ensures Channels() == Attached(old(Channels()), name)
    {
      if name == RELIABLE_LABEL {
        reliableUp := true;
      } else {
        unreliableUp := true;
      }
    }

    method OnDataChannel(v: Routing, name: string, r: DataState, u: DataState)
      modifies this`log, this`reliablePackets, this`unreliablePackets, this`reliableState, this`unreliableState
      modifies this`reliableUp, this`unreliableUp, this`opens, this`crashed
      ensures Channels() == OnTask(v, old(Channels()), DataChannel(name, r, u))
    {
      if crashed {
        return;
      }
      Attach(name);
      UpdateDataChannelStates(r, u);
      CheckSendDeferredData(v);
    }

    method OnDataChannelStateChange(v: Routing, r: DataState, u: DataState)
      modifies this`log, this`reliablePackets, this`unreliablePackets, this`reliableState, this`unreliableState
      modifies this`opens, this`crashed
      ensures Channels() == OnTask(v, old(Channels()), StateChange(r, u))
    {
      if crashed {
        return;
      }
      UpdateDataChannelStates(r, u);
      CheckSendDeferredData(v);
    }

    /** Accepts a session waiting for it and posts the response. */
    method AcceptSession(now: Time, thread: bool)
      modifies this`negotiationState, this`lastSessionActivity, this`pending
      ensures Negotiating() == OnSignal(old(Negotiating()), Accept) && lastSessionActivity == now
      ensures pending ==
                if thread && old(negotiationState) == WaitingForAccept then old(pending) + [NoOp]
                else old(pending)
    {
      lastSessionActivity := now;
      if negotiationState == WaitingForAccept {
        negotiationState := ICEProcessing;
        if thread {
          pending := pending + [NoOp];
        }
      }
    }

    method ProcessConnectResponse(now: Time)
      modifies this`negotiationState, this`negotiationTimer, this`lastSessionActivity
      ensures Negotiating() == OnSignal(old(Negotiating()), Response(now)) && lastSessionActivity == now
    {
      negotiationState, negotiationTimer, lastSessionActivity := ICEProcessing, now, now;
    }

    /** Asks for statistics when one is due, and posts the request. */
    method CheckUpdateStats(now: Time, thread: bool)
      modifies this`lastStatsUpdate, this`statsRequestInProgress, this`pending
      ensures Statistics() == Checked(old(Statistics()), now)
      ensures pending == if thread && AsksAt(old(Statistics()), now) then old(pending) + [NoOp] else old(pending)
    {
      if WholeUnits(now - lastStatsUpdate, MILLISECOND) >= 2000 && !statsRequestInProgress {
        if thread {
          pending := pending + [NoOp];
        }
        statsRequestInProgress := true;
        lastStatsUpdate := now;
      }
    }

    /** `state - 1 <= 1` is a signed comparison, so it holds of New, Checking and Connected. */
    method OnIceConnectionChange(state: bv32, now: Time, thread: bool)
      modifies this`iceConnectionState, this`lastStatsUpdate, this`statsRequestInProgress, this`pending
      ensures Negotiating() == OnSignal(old(Negotiating()), IceReport(state))
      ensures Statistics() == if state <= 2 then Checked(old(Statistics()), now) else old(Statistics())
      ensures pending == if state <= 2 && thread && AsksAt(old(Statistics()), now) then old(pending) + [NoOp]
                         else old(pending)
    {
      iceConnectionState := state;
      if state <= 2 {
        CheckUpdateStats(now, thread);
      }
    }

    method IsDeadSession(v: Liveness, timeoutSeconds: int, now: Time) returns (verdict: Verdict)
      ensures verdict == Judge(v, Negotiating(), timeoutSeconds, now)
    {
      var state := if v == AsksStat then connectionStat else iceConnectionState;
      var error: bv8;
      if !Failed(state) {
        if negotiationState == ICEProcessing {
          return Lives;
        }
        if !TimedOut(negotiationTimer, timeoutSeconds, now) {
          return Lives;
        }
        error := TimeoutError(negotiationState);
      } else {
        error := ERROR_ICE;
      }
      return Dies(error);
    }

    /** One pass offers every candidate once and in order, erasing the accepted ones in place;
        without a peer connection the first offer dereferences a null pointer. */
    method ProcessIceCandidates(accepts: nat -> bool)
      requires !crashed
      modifies this`deferredIceCandidates, this`offered, this`crashed
      ensures crashed <==> !hasPeer && old(deferredIceCandidates) != []
      ensures !crashed ==> offered == old(offered) + old(deferredIceCandidates)
                           && deferredIceCandidates == Refused(old(deferredIceCandidates), accepts)
      ensures crashed ==> offered == old(offered) && deferredIceCandidates == old(deferredIceCandidates)
    {
      ghost var cs := deferredIceCandidates;
      var it, k := 0, 0;
      while it != |deferredIceCandidates|
        invariant !crashed && (k > 0 ==> hasPeer)
        invariant MidPass(cs, k, it, deferredIceCandidates, accepts)
        invariant offered == old(offered) + cs[..k]
        decreases |deferredIceCandidates| - it
      {
        if !hasPeer {
          crashed := true;
          MidPassStart(cs, it, deferredIceCandidates, accepts);
          return;
        }
        MidPassStep(cs, k, it, deferredIceCandidates, accepts);
        Associative(old(offered), cs[..k], [cs[k]]);
        offered := offered + [deferredIceCandidates[it]];
        if accepts(k) {
          deferredIceCandidates := deferredIceCandidates[..it] + deferredIceCandidates[it + 1..];
        } else {
          it := it + 1;
        }
        k := k + 1;
      }
      MidPassEnd(cs, k, deferredIceCandidates, accepts);
    }
  }
}
