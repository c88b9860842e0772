/** The packet side of NetworkSession: two data channels, the queues of deferred packets, and the
    callbacks that flush them.  A task on the signal thread is one atomic step with its arguments
    by value. */
module SessionChannels {
  import opened Common
  import opened Sequences

  type Packet = Bytes
  datatype Kind = Unreliable | Reliable
  datatype DataState = Connecting | Open | Closing | Closed

  /** One call of DataChannelInterface::Send: on which channel, and how the packet was submitted. */
  datatype Handoff = Handoff(channel: Kind, kind: Kind, packet: Packet)

  /** Where CheckSendDeferredData sends deferred unreliable packets: the code uses the reliable
      channel, the intended one is the unreliable channel. */
  datatype Routing = AsWritten | AsIntended

  /** `reliableUp` and `unreliableUp` say whether the channel pointers are set, `opens` counts the
      calls of NotifyOnSessionOpen, and `crashed` is a dereferenced null pointer. */
  datatype Transport = Transport(
    hasPeer: bool,
    reliableUp: bool, reliableState: DataState, reliableQueue: seq<Packet>,
    unreliableUp: bool, unreliableState: DataState, unreliableQueue: seq<Packet>,
    log: seq<Handoff>, opens: nat, crashed: bool)

  /** The tasks of a session.  `reliable` and `unreliable` are what `state()` of a set channel
      pointer answers at that moment; `NoOp` is what TrySendSessionResponse and CheckUpdateStats
      post, which touches no channel. */
  datatype Task =
    | Send(kind: Kind, packet: Packet)
    | NoOp
    | DataChannel(name: string, reliable: DataState, unreliable: DataState)
    | StateChange(reliable: DataState, unreliable: DataState)
  {
    /** The two callbacks that refresh the cached states and flush the queues. */
    predicate Refreshes() { DataChannel? || StateChange? }
  }

  const RELIABLE_LABEL := "ReliableDataChannel"

  function Tagged(channel: Kind, kind: Kind, q: seq<Packet>): seq<Handoff> {
    if q == [] then [] else Tagged(channel, kind, q[..|q| - 1]) + [Handoff(channel, kind, q[|q| - 1])]
  }

  function OnSend(t: Transport, kind: Kind, p: Packet): Transport {
    if !t.hasPeer then t
    else if kind.Reliable? then
      if !t.reliableUp || !t.reliableState.Open? then t.(reliableQueue := t.reliableQueue + [p])
      else t.(log := t.log + [Handoff(Reliable, Reliable, p)])
    else
      if t.unreliableUp && t.unreliableState.Open? then t.(log := t.log + [Handoff(Unreliable, Unreliable, p)])
      else t.(unreliableQueue := t.unreliableQueue + [p])
  }

  function Attached(t: Transport, name: string): Transport {
    if name == RELIABLE_LABEL then t.(reliableUp := true) else t.(unreliableUp := true)
  }

  function UpdateStates(t: Transport, reliable: DataState, unreliable: DataState): Transport {
    var r := if t.reliableUp then reliable else Closed;
    var u := if t.unreliableUp then unreliable else Closed;
    t.(reliableState := r, unreliableState := u, opens := t.opens + if r.Open? && u.Open? then 1 else 0)
  }

  /** A callback up to its flush. */
  function Refreshed(t: Transport, task: Task): Transport
    requires task.Refreshes()
  {
    UpdateStates(if task.DataChannel? then Attached(t, task.name) else t, task.reliable, task.unreliable)
  }

  function FlushReliable(t: Transport): Transport {
    if t.reliableUp then t.(log := t.log + Tagged(Reliable, Reliable, t.reliableQueue), reliableQueue := []) else t
  }

  /** The unreliable queue is emptied even when there is no channel to send it on. */
  function FlushUnreliable(v: Routing, t: Transport): Transport {
    if !t.unreliableUp then t.(unreliableQueue := [])
    else if v.AsIntended? then
      t.(log := t.log + Tagged(Unreliable, Unreliable, t.unreliableQueue), unreliableQueue := [])
    else if t.reliableUp || t.unreliableQueue == [] then
      t.(log := t.log + Tagged(Reliable, Unreliable, t.unreliableQueue), unreliableQueue := [])
    else t.(crashed := true)
  }

  function Flush(v: Routing, t: Transport): Transport { FlushUnreliable(v, FlushReliable(t)) }

  function OnTask(v: Routing, t: Transport, task: Task): Transport {
    if t.crashed || task.NoOp? then t
    else if task.Send? then OnSend(t, task.kind, task.packet)
    else Flush(v, Refreshed(t, task))
  }

  function RunTasks(v: Routing, t: Transport, tasks: seq<Task>): Transport
    decreases |tasks|
  {
    if tasks == [] then t else RunTasks(v, OnTask(v, t, tasks[0]), tasks[1..])
  }

  /** After the initialisation task of an outgoing session: a peer connection, no channel yet. */
  const INITIALISED_OUTGOING := Transport(true, false, Closed, [], false, Closed, [], [], 0, false)

  /** No peer connection, and the cached channel states as they were: after InitializeIncoming, which
      moves the peer connection out of its field again or fails to create one. */
  function Peerless(r: DataState, u: DataState): Transport {
    Transport(false, false, r, [], false, u, [], [], 0, false)
  }

  // ---------------------------------------------------------------- accounting for packets

  function Handed(log: seq<Handoff>, kind: Kind): seq<Packet> {
    if log == [] then []
    else Handed(log[..|log| - 1], kind) + (if log[|log| - 1].kind == kind then [log[|log| - 1].packet] else [])
  }

  function SubmittedBy(task: Task, kind: Kind): seq<Packet> {
    if task.Send? && task.kind == kind then [task.packet] else []
  }

  function Submitted(tasks: seq<Task>, kind: Kind): seq<Packet> {
    if tasks == [] then [] else SubmittedBy(tasks[0], kind) + Submitted(tasks[1..], kind)
  }

  lemma SubmittedCons(task: Task, rest: seq<Task>, kind: Kind)
    ensures Submitted([task] + rest, kind) == SubmittedBy(task, kind) + Submitted(rest, kind)
  {
    assert ([task] + rest)[1..] == rest;
  }

  lemma {:induction false} SubmittedConcat(a: seq<Task>, b: seq<Task>, kind: Kind)
    ensures Submitted(a + b, kind) == Submitted(a, kind) + Submitted(b, kind)
    decreases |a|
  {
    if a == [] {
      Nothing(b);
      Nothing(Submitted(b, kind));
    } else {
      var first, rest := a[0], a[1..];
      SubmittedConcat(rest, b, kind);
      SubmittedCons(first, rest + b, kind);
      assert a + b == [first] + (rest + b);
      Associative(SubmittedBy(first, kind), Submitted(rest, kind), Submitted(b, kind));
    }
  }

  lemma SubmittedOne(task: Task, kind: Kind)
    ensures Submitted([task], kind) == SubmittedBy(task, kind)
  {
    assert [task][1..] == [];
    Nothing(SubmittedBy(task, kind));
  }

  lemma HandedPush(log: seq<Handoff>, h: Handoff, kind: Kind)
    ensures Handed(log + [h], kind) == Handed(log, kind) + (if h.kind == kind then [h.packet] else [])
  {
    assert (log + [h])[..|log|] == log;
  }

  lemma {:induction false} HandedTagged(log: seq<Handoff>, channel: Kind, kind: Kind, q: seq<Packet>, k: Kind)
    ensures Handed(log + Tagged(channel, kind, q), k) == Handed(log, k) + (if k == kind then q else [])
    decreases |q|
  {
    if q == [] {
      assert log + Tagged(channel, kind, q) == log;
    } else {
      var q', h := q[..|q| - 1], Handoff(channel, kind, q[|q| - 1]);
      var done := log + Tagged(channel, kind, q');
      HandedTagged(log, channel, kind, q', k);
      HandedPush(done, h, k);
      Associative(log, Tagged(channel, kind, q'), [h]);
      Associative(Handed(log, k), q', [h.packet]);
      assert q == q' + [h.packet];
    }
  }

  lemma {:induction false} TaggedAt(channel: Kind, kind: Kind, q: seq<Packet>)
    ensures |Tagged(channel, kind, q)| == |q|
    ensures forall i :: 0 <= i < |q| ==> Tagged(channel, kind, q)[i] == Handoff(channel, kind, q[i])
  {
    if q != [] { TaggedAt(channel, kind, q[..|q| - 1]); }
  }

  /** An open cached state means that its channel exists and nothing is queued for it. */
  ghost predicate OpenMeansDrained(t: Transport) {
    && (t.reliableState.Open? ==> t.reliableUp && t.reliableQueue == [])
    && (t.unreliableState.Open? ==> t.unreliableUp && t.unreliableQueue == [])
  }

  /** The packets `r` and `u` submitted so far, against what was handed on and what is queued. */
  ghost predicate Accounted(t: Transport, r: seq<Packet>, u: seq<Packet>) {
    && Handed(t.log, Reliable) + t.reliableQueue <= r
    && (!t.crashed ==> Handed(t.log, Reliable) + t.reliableQueue == r && OpenMeansDrained(t))
    && Subseq(Handed(t.log, Unreliable) + t.unreliableQueue, u)
  }

  lemma SendAccounted(t: Transport, r: seq<Packet>, u: seq<Packet>, kind: Kind, p: Packet)
    requires t.hasPeer && !t.crashed && Accounted(t, r, u)
    ensures Accounted(OnSend(t, kind, p),
                      r + if kind.Reliable? then [p] else [],
                      u + if kind.Unreliable? then [p] else [])
  {
    var hr, hu := Handed(t.log, Reliable), Handed(t.log, Unreliable);
    HandedPush(t.log, Handoff(kind, kind, p), Reliable);
    HandedPush(t.log, Handoff(kind, kind, p), Unreliable);
    Associative(hr, t.reliableQueue, [p]);
    Associative(hu, t.unreliableQueue, [p]);
    Nothing(hr);
    Nothing(hu);
    Nothing(r);
    Nothing(u);
    Nothing(hr + [p]);
    Nothing(hu + [p]);
    SubseqPush(hu + t.unreliableQueue, u, p);
  }

  lemma FlushReliableAccounted(t: Transport, r: seq<Packet>, u: seq<Packet>)
    requires Handed(t.log, Reliable) + t.reliableQueue == r && Subseq(Handed(t.log, Unreliable) + t.unreliableQueue, u)
    ensures var t' := FlushReliable(t);
            && Handed(t'.log, Reliable) + t'.reliableQueue == r
            && Subseq(Handed(t'.log, Unreliable) + t'.unreliableQueue, u)
            && (t.reliableUp ==> t'.reliableQueue == [])
  {
    HandedTagged(t.log, Reliable, Reliable, t.reliableQueue, Reliable);
    HandedTagged(t.log, Reliable, Reliable, t.reliableQueue, Unreliable);
    Nothing(Handed(t.log, Unreliable));
    Nothing(Handed(t.log, Reliable) + t.reliableQueue);
  }

  lemma FlushUnreliableAccounted(v: Routing, t: Transport, r: seq<Packet>, u: seq<Packet>)
    requires Handed(t.log, Reliable) + t.reliableQueue == r && Subseq(Handed(t.log, Unreliable) + t.unreliableQueue, u)
    ensures var t' := FlushUnreliable(v, t);
            && Handed(t'.log, Reliable) + t'.reliableQueue == r
            && Subseq(Handed(t'.log, Unreliable) + t'.unreliableQueue, u)
            && (!t.crashed && !t'.crashed ==> t'.unreliableQueue == [])
  {
    var channel := if v.AsIntended? then Unreliable else Reliable;
    var hu := Handed(t.log, Unreliable);
    HandedTagged(t.log, channel, Unreliable, t.unreliableQueue, Reliable);
    HandedTagged(t.log, channel, Unreliable, t.unreliableQueue, Unreliable);
    Nothing(Handed(t.log, Reliable));
    SubseqPrefix(hu + t.unreliableQueue, |hu|, u);
    assert (hu + t.unreliableQueue)[..|hu|] == hu;
    Nothing(hu);
    Nothing(hu + t.unreliableQueue);
  }

  lemma FlushAccounted(v: Routing, t: Transport, r: seq<Packet>, u: seq<Packet>)
    requires !t.crashed && (t.reliableState.Open? ==> t.reliableUp) && (t.unreliableState.Open? ==> t.unreliableUp)
    requires Handed(t.log, Reliable) + t.reliableQueue == r && Subseq(Handed(t.log, Unreliable) + t.unreliableQueue, u)
    ensures Accounted(Flush(v, t), r, u) && Flush(v, t).hasPeer == t.hasPeer
  {
    FlushReliableAccounted(t, r, u);
    FlushUnreliableAccounted(v, FlushReliable(t), r, u);
  }

  lemma RefreshAccounted(v: Routing, t: Transport, r: seq<Packet>, u: seq<Packet>, task: Task)
    requires !t.crashed && t.hasPeer && task.Refreshes() && Accounted(t, r, u)
    ensures Accounted(OnTask(v, t, task), r, u) && OnTask(v, t, task).hasPeer
  {
    FlushAccounted(v, Refreshed(t, task), r, u);
  }

  lemma TaskAccounted(v: Routing, t: Transport, r: seq<Packet>, u: seq<Packet>, task: Task)
    requires t.hasPeer && Accounted(t, r, u)
    ensures OnTask(v, t, task).hasPeer
    ensures Accounted(OnTask(v, t, task), r + SubmittedBy(task, Reliable), u + SubmittedBy(task, Unreliable))
  {
    Nothing(r);
    Nothing(u);
    if t.crashed {
      if task.Send? { SubseqPush(Handed(t.log, Unreliable) + t.unreliableQueue, u, task.packet); }
    } else if task.Send? {
      SendAccounted(t, r, u, task.kind, task.packet);
    } else if !task.NoOp? {
      RefreshAccounted(v, t, r, u, task);
    }
  }

  lemma {:induction false} RunAccounted(v: Routing, t: Transport, r: seq<Packet>, u: seq<Packet>, tasks: seq<Task>)
    requires t.hasPeer && Accounted(t, r, u)
    ensures Accounted(RunTasks(v, t, tasks), r + Submitted(tasks, Reliable), u + Submitted(tasks, Unreliable))
    decreases |tasks|
  {
    if tasks == [] {
      Nothing(r);
      Nothing(u);
    } else {
      var task, rest := tasks[0], tasks[1..];
      TaskAccounted(v, t, r, u, task);
      Associative(r, SubmittedBy(task, Reliable), Submitted(rest, Reliable));
      Associative(u, SubmittedBy(task, Unreliable), Submitted(rest, Unreliable));
      RunAccounted(v, OnTask(v, t, task), r + SubmittedBy(task, Reliable), u + SubmittedBy(task, Unreliable), rest);
    }
  }

  // ---------------------------------------------------------------- what the code as written does to a run

  /** All that decides whether a run of the code as written goes wrong: which channels exist, whether
      the unreliable one was last seen open, and whether an unreliable packet waits. */
  datatype Watch = Watch(reliableUp: bool, unreliableUp: bool, unreliableOpen: bool, waiting: bool)

  const UNCONNECTED := Watch(false, false, false, false)

  function Watched(w: Watch, task: Task): Watch {
    match task
    case NoOp => w
    case Send(k, _) => w.(waiting := w.waiting || (k.Unreliable? && !(w.unreliableUp && w.unreliableOpen)))
    case StateChange(_, u) => w.(unreliableOpen := w.unreliableUp && u.Open?, waiting := false)
    case DataChannel(name, _, u) =>
      if name == RELIABLE_LABEL then Watch(true, w.unreliableUp, w.unreliableUp && u.Open?, false)
      else Watch(w.reliableUp, true, u.Open?, false)
  }

  /** The flush of the callback finds a waiting unreliable packet and an unreliable channel. */
  predicate Misroutes(w: Watch, task: Task) {
    task.Refreshes() && w.waiting && (w.unreliableUp || (task.DataChannel? && task.name != RELIABLE_LABEL))
  }

  /** ... and no reliable channel to put it on. */
  predicate HitsNull(w: Watch, task: Task) {
    Misroutes(w, task) && !(w.reliableUp || (task.DataChannel? && task.name == RELIABLE_LABEL))
  }

  predicate Harmless(w: Watch, tasks: seq<Task>)
    decreases |tasks|
  {
    tasks == [] || (!Misroutes(w, tasks[0]) && Harmless(Watched(w, tasks[0]), tasks[1..]))
  }

  predicate NullFree(w: Watch, tasks: seq<Task>)
    decreases |tasks|
  {
    tasks == [] || (!HitsNull(w, tasks[0]) && NullFree(Watched(w, tasks[0]), tasks[1..]))
  }

  ghost predicate WatchedBy(t: Transport, w: Watch) {
    && t.hasPeer && t.reliableUp == w.reliableUp && t.unreliableUp == w.unreliableUp
    && (t.unreliableUp ==> (t.unreliableState.Open? <==> w.unreliableOpen))
    && (t.unreliableQueue != [] <==> w.waiting)
  }

  ghost predicate OnOwnChannel(log: seq<Handoff>) {
    forall i :: 0 <= i < |log| ==> log[i].channel == log[i].kind
  }

  /** The exact condition, on the state before CheckSendDeferredData, under which deferred packets
      keep to their own channel, and under which the null reliable channel is dereferenced. */
  lemma FlushKeepsChannels(v: Routing, t: Transport)
    requires !t.crashed && OnOwnChannel(t.log)
    ensures OnOwnChannel(Flush(v, t).log) <==>
              v.AsIntended? || t.unreliableQueue == [] || !t.unreliableUp || !t.reliableUp
    ensures Flush(v, t).crashed <==> v.AsWritten? && t.unreliableQueue != [] && t.unreliableUp && !t.reliableUp
  {
    var t' := FlushReliable(t);
    TaggedAt(Reliable, Reliable, t.reliableQueue);
    TaggedAt(Reliable, Unreliable, t.unreliableQueue);
    TaggedAt(Unreliable, Unreliable, t.unreliableQueue);
    if v.AsWritten? && t.unreliableQueue != [] && t.unreliableUp && t.reliableUp {
      assert Flush(v, t).log[|t'.log|] == Handoff(Reliable, Unreliable, t.unreliableQueue[0]);
    }
  }

  lemma StepGrowsLog(v: Routing, t: Transport, task: Task)
    ensures t.log <= OnTask(v, t, task).log
  {
    if !t.crashed && task.Refreshes() { assert t.log <= FlushReliable(Refreshed(t, task)).log; }
  }

  /** What was handed on stays handed on, and a crash is final. */
  lemma {:induction false} LogOnlyGrows(v: Routing, t: Transport, tasks: seq<Task>)
    ensures t.log <= RunTasks(v, t, tasks).log
    ensures t.crashed ==> RunTasks(v, t, tasks) == t
    decreases |tasks|
  {
    if tasks != [] {
      StepGrowsLog(v, t, tasks[0]);
      LogOnlyGrows(v, OnTask(v, t, tasks[0]), tasks[1..]);
    }
  }

  lemma SendWatched(t: Transport, w: Watch, kind: Kind, p: Packet)
    requires !t.crashed && WatchedBy(t, w)
    ensures !OnSend(t, kind, p).crashed && WatchedBy(OnSend(t, kind, p), Watched(w, Send(kind, p)))
  {
  }

  lemma FlushEffect(t: Transport)
    requires !t.crashed
    ensures var t' := Flush(AsWritten, t);
            && (t'.crashed <==> t.unreliableQueue != [] && t.unreliableUp && !t.reliableUp)
            && (!t'.crashed ==> t'.unreliableQueue == []) && t'.unreliableState == t.unreliableState
            && t'.hasPeer == t.hasPeer && t'.reliableUp == t.reliableUp && t'.unreliableUp == t.unreliableUp
  {
  }

  lemma StepWatched(t: Transport, w: Watch, task: Task)
    requires !t.crashed && WatchedBy(t, w)
    ensures var t' := OnTask(AsWritten, t, task);
            && (t'.crashed <==> HitsNull(w, task))
            && (!t'.crashed ==> WatchedBy(t', Watched(w, task)))
  {
    if task.Send? {
      SendWatched(t, w, task.kind, task.packet);
    } else if task.Refreshes() {
      FlushEffect(Refreshed(t, task));
    }
  }

  lemma StepOnOwnChannel(t: Transport, w: Watch, task: Task)
    requires !t.crashed && WatchedBy(t, w) && OnOwnChannel(t.log)
    ensures OnOwnChannel(OnTask(AsWritten, t, task).log) <==> !Misroutes(w, task) || HitsNull(w, task)
  {
    if task.Refreshes() { FlushKeepsChannels(AsWritten, Refreshed(t, task)); }
  }

  lemma {:induction false} WrittenRunsFrom(t: Transport, w: Watch, tasks: seq<Task>)
    requires !t.crashed && WatchedBy(t, w)
    ensures !RunTasks(AsWritten, t, tasks).crashed <==> NullFree(w, tasks)
    ensures OnOwnChannel(t.log) ==>
              (!RunTasks(AsWritten, t, tasks).crashed && OnOwnChannel(RunTasks(AsWritten, t, tasks).log)
               <==> Harmless(w, tasks))
    decreases |tasks|
  {
    if tasks != [] {
      var t' := OnTask(AsWritten, t, tasks[0]);
      StepWatched(t, w, tasks[0]);
      if OnOwnChannel(t.log) { StepOnOwnChannel(t, w, tasks[0]); }
      LogOnlyGrows(AsWritten, t', tasks[1..]);
      if !t'.crashed { WrittenRunsFrom(t', Watched(w, tasks[0]), tasks[1..]); }
    }
  }

  /** Exactly which runs of the code as written stay clear of the null channel, and which also keep
      every packet on its own channel. */
  lemma WrittenRunsExactly(tasks: seq<Task>)
    ensures var t := RunTasks(AsWritten, INITIALISED_OUTGOING, tasks);
            && (!t.crashed <==> NullFree(UNCONNECTED, tasks))
            && (!t.crashed && OnOwnChannel(t.log) <==> Harmless(UNCONNECTED, tasks))
  {
    WrittenRunsFrom(INITIALISED_OUTGOING, UNCONNECTED, tasks);
  }

  lemma {:induction false} IntendedKeepsChannels(t: Transport, tasks: seq<Task>)
    requires !t.crashed && OnOwnChannel(t.log)
    ensures !RunTasks(AsIntended, t, tasks).crashed && OnOwnChannel(RunTasks(AsIntended, t, tasks).log)
    decreases |tasks|
  {
    if tasks != [] {
      if tasks[0].Refreshes() { FlushKeepsChannels(AsIntended, Refreshed(t, tasks[0])); }
      IntendedKeepsChannels(OnTask(AsIntended, t, tasks[0]), tasks[1..]);
    }
  }

  lemma TwoTasks(v: Routing, t: Transport, a: Task, b: Task)
    ensures RunTasks(v, t, [a, b]) == OnTask(v, OnTask(v, t, a), b)
  {
    assert [a, b][1..] == [b] && [b][1..] == [];
    assert RunTasks(v, OnTask(v, OnTask(v, t, a), b), []) == OnTask(v, OnTask(v, t, a), b);
    assert RunTasks(v, OnTask(v, t, a), [b]) == OnTask(v, OnTask(v, t, a), b);
  }

  /** Runs of the code as written: one puts an unreliable packet on the reliable channel, the other
      dereferences the null reliable channel. */
  lemma WrittenGoesWrong(p: Packet)
    ensures var t := OnTask(AsWritten, INITIALISED_OUTGOING, DataChannel(RELIABLE_LABEL, Open, Closed));
            RunTasks(AsWritten, t, [Send(Unreliable, p), DataChannel("U", Open, Open)]).log
            == [Handoff(Reliable, Unreliable, p)]
    ensures RunTasks(AsWritten, INITIALISED_OUTGOING, [Send(Unreliable, p), DataChannel("U", Open, Open)]).crashed
  {
    assert "U" != RELIABLE_LABEL by { assert |"U"| != |RELIABLE_LABEL|; }
    var t := OnTask(AsWritten, INITIALISED_OUTGOING, DataChannel(RELIABLE_LABEL, Open, Closed));
    TwoTasks(AsWritten, t, Send(Unreliable, p), DataChannel("U", Open, Open));
    TwoTasks(AsWritten, INITIALISED_OUTGOING, Send(Unreliable, p), DataChannel("U", Open, Open));
    TaggedAt(Reliable, Unreliable, [p]);
    assert OnTask(AsWritten, t, Send(Unreliable, p)).unreliableQueue == [p];
    assert OnTask(AsWritten, INITIALISED_OUTGOING, Send(Unreliable, p)).unreliableQueue == [p];
    assert Tagged(Reliable, Reliable, []) == [];
  }

  // ---------------------------------------------------------------- whole runs

  /** Reliable packets leave in submission order with none lost or doubled, and unreliable ones
      leave in submission order: as intended in every run, as written in every run that stays clear
      of the null channel.  Up to a crash the code as written loses nothing either. */
  lemma ReliableFifo(v: Routing, tasks: seq<Task>)
    ensures var t := RunTasks(v, INITIALISED_OUTGOING, tasks);
            && (v.AsIntended? || NullFree(UNCONNECTED, tasks) ==>
                  && Handed(t.log, Reliable) + t.reliableQueue == Submitted(tasks, Reliable)
                  && (t.reliableState.Open? ==> Handed(t.log, Reliable) == Submitted(tasks, Reliable)))
            && Handed(t.log, Reliable) + t.reliableQueue <= Submitted(tasks, Reliable)
            && Subseq(Handed(t.log, Unreliable) + t.unreliableQueue, Submitted(tasks, Unreliable))
  {
    RunAccounted(v, INITIALISED_OUTGOING, [], [], tasks);
    IntendedKeepsChannels(INITIALISED_OUTGOING, tasks);
    WrittenRunsExactly(tasks);
    Nothing(Submitted(tasks, Reliable));
    Nothing(Submitted(tasks, Unreliable));
    Nothing(Handed(RunTasks(v, INITIALISED_OUTGOING, tasks).log, Reliable));
  }

  /** Without a peer connection every packet is dropped, so an incoming session keeps the FIFO law
      exactly for runs that submit no reliable packet. */
  lemma {:induction false} IncomingDropsEverything(v: Routing, t: Transport, tasks: seq<Task>)
    requires !t.hasPeer && !t.crashed && t.log == [] && t.reliableQueue == [] && t.unreliableQueue == []
    ensures var t' := RunTasks(v, t, tasks);
            && !t'.crashed && t'.log == [] && t'.reliableQueue == [] && t'.unreliableQueue == []
            && (Handed(t'.log, Reliable) + t'.reliableQueue == Submitted(tasks, Reliable)
                <==> Submitted(tasks, Reliable) == [])
    decreases |tasks|
  {
    if tasks != [] { IncomingDropsEverything(v, OnTask(v, t, tasks[0]), tasks[1..]); }
  }
}
