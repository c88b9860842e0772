/** What a session's channels are, hold and have handed on, told from its tasks alone. */
module SessionHistory {
  import opened Common
  import opened Sequences
  import opened SessionChannels

  // ---------------------------------------------------------------- channels, from the tasks alone

  /** A callback that brings the channel of this kind. */
  predicate Announces(task: Task, kind: Kind) {
    task.DataChannel? && (task.name == RELIABLE_LABEL <==> kind.Reliable?)
  }

  ghost predicate Offered(tasks: seq<Task>, kind: Kind) {
    exists k :: 0 <= k < |tasks| && Announces(tasks[k], kind)
  }

  predicate ReportsOpen(task: Task, kind: Kind) {
    task.Refreshes() && if kind.Reliable? then task.reliable.Open? else task.unreliable.Open?
  }

  /** The last callback found the channel of this kind there and open. */
  ghost predicate LastSeenOpen(tasks: seq<Task>, kind: Kind) {
    tasks != [] &&
    var last := tasks[|tasks| - 1];
    if last.Refreshes() then ReportsOpen(last, kind) && Offered(tasks, kind)
    else LastSeenOpen(tasks[..|tasks| - 1], kind)
  }

  /** Task `k` is a callback that finds both channels there and open. */
  ghost predicate OpensAt(tasks: seq<Task>, k: nat) {
    && k < |tasks| && ReportsOpen(tasks[k], Reliable) && ReportsOpen(tasks[k], Unreliable)
    && Offered(tasks[..k + 1], Reliable) && Offered(tasks[..k + 1], Unreliable)
  }

  ghost function OpenCalls(tasks: seq<Task>): nat {
    if tasks == [] then 0
    else OpenCalls(tasks[..|tasks| - 1]) + if OpensAt(tasks, |tasks| - 1) then 1 else 0
  }

  ghost predicate FollowsKind(up: bool, state: DataState, tasks: seq<Task>, kind: Kind) {
    (up <==> Offered(tasks, kind)) && (state.Open? <==> LastSeenOpen(tasks, kind))
  }

  ghost predicate FollowsTasks(t: Transport, tasks: seq<Task>) {
    && FollowsKind(t.reliableUp, t.reliableState, tasks, Reliable)
    && FollowsKind(t.unreliableUp, t.unreliableState, tasks, Unreliable)
    && t.opens == OpenCalls(tasks)
  }

  predicate Up(t: Transport, kind: Kind) { if kind.Reliable? then t.reliableUp else t.unreliableUp }

  lemma OfferedFirst(tasks: seq<Task>, kind: Kind)
    requires tasks != []
    ensures Offered(tasks, kind) <==> Announces(tasks[0], kind) || Offered(tasks[1..], kind)
  {
    assert forall k :: 0 < k < |tasks| ==> tasks[k] == tasks[1..][k - 1];
  }

  lemma StepGetsChannel(v: Routing, t: Transport, task: Task, kind: Kind)
    requires !t.crashed
    ensures Up(OnTask(v, t, task), kind) <==> Up(t, kind) || Announces(task, kind)
  {
  }

  /** From any state, in any run that does not crash, a channel is there in the end exactly if it was
      there or was offered. */
  lemma {:induction false} GetsChannelExactly(v: Routing, t: Transport, tasks: seq<Task>, kind: Kind)
    requires !RunTasks(v, t, tasks).crashed
    ensures Up(RunTasks(v, t, tasks), kind) <==> Up(t, kind) || Offered(tasks, kind)
    decreases |tasks|
  {
    if tasks != [] {
      LogOnlyGrows(v, t, tasks);
      StepGetsChannel(v, t, tasks[0], kind);
      OfferedFirst(tasks, kind);
      GetsChannelExactly(v, OnTask(v, t, tasks[0]), tasks[1..], kind);
    }
  }

  lemma OfferedPush(tasks: seq<Task>, task: Task, kind: Kind)
    ensures Offered(tasks + [task], kind) <==> Offered(tasks, kind) || Announces(task, kind)
  {
    if Offered(tasks, kind) {
      var k :| 0 <= k < |tasks| && Announces(tasks[k], kind);
      assert (tasks + [task])[k] == tasks[k];
    }
    assert (tasks + [task])[|tasks|] == task;
  }

  lemma LastSeenOpenPush(tasks: seq<Task>, task: Task, kind: Kind)
    ensures LastSeenOpen(tasks + [task], kind) <==>
              if task.Refreshes() then ReportsOpen(task, kind) && (Offered(tasks, kind) || Announces(task, kind))
              else LastSeenOpen(tasks, kind)
  {
    OfferedPush(tasks, task, kind);
    assert (tasks + [task])[..|tasks|] == tasks;
  }

  lemma OpenCallsPush(tasks: seq<Task>, task: Task)
    ensures OpenCalls(tasks + [task]) == OpenCalls(tasks) +
              if LastSeenOpen(tasks + [task], Reliable) && LastSeenOpen(tasks + [task], Unreliable) && task.Refreshes()
              then 1 else 0
  {
    assert (tasks + [task])[..|tasks|] == tasks;
    assert (tasks + [task])[..|tasks| + 1] == tasks + [task];
  }

  lemma SendFollows(t: Transport, tasks: seq<Task>, task: Task)
    requires FollowsTasks(t, tasks) && !task.Refreshes()
    ensures FollowsTasks(t, tasks + [task])
  {
    OfferedPush(tasks, task, Reliable);
    OfferedPush(tasks, task, Unreliable);
    LastSeenOpenPush(tasks, task, Reliable);
    LastSeenOpenPush(tasks, task, Unreliable);
    OpenCallsPush(tasks, task);
  }

  lemma RefreshFollows(t: Transport, tasks: seq<Task>, task: Task)
    requires FollowsTasks(t, tasks) && task.Refreshes()
    ensures FollowsTasks(Refreshed(t, task), tasks + [task])
  {
    OfferedPush(tasks, task, Reliable);
    OfferedPush(tasks, task, Unreliable);
    LastSeenOpenPush(tasks, task, Reliable);
    LastSeenOpenPush(tasks, task, Unreliable);
    OpenCallsPush(tasks, task);
  }

  /** Equal but for queues, log and crash. */
  predicate SameChannels(t: Transport, t': Transport) {
    && t'.reliableUp == t.reliableUp && t'.reliableState == t.reliableState
    && t'.unreliableUp == t.unreliableUp && t'.unreliableState == t.unreliableState && t'.opens == t.opens
  }

  lemma OnlyRefreshesChange(v: Routing, t: Transport, task: Task)
    requires !t.crashed
    ensures SameChannels(if task.Refreshes() then Refreshed(t, task) else t, OnTask(v, t, task))
  {
  }

  lemma StepFollows(v: Routing, t: Transport, tasks: seq<Task>, task: Task)
    requires !t.crashed && FollowsTasks(t, tasks)
    ensures FollowsTasks(OnTask(v, t, task), tasks + [task])
  {
    var t' := OnTask(v, t, task);
    OnlyRefreshesChange(v, t, task);
    if task.Refreshes() { RefreshFollows(t, tasks, task); } else { SendFollows(t, tasks, task); }
    assert FollowsTasks(if task.Refreshes() then Refreshed(t, task) else t, tasks + [task]);
  }

  lemma {:induction false} RunTasksPush(v: Routing, t: Transport, tasks: seq<Task>, task: Task)
    ensures RunTasks(v, t, tasks + [task]) == OnTask(v, RunTasks(v, t, tasks), task)
    decreases |tasks|
  {
    if tasks == [] {
      assert ([] + [task])[1..] == [];
    } else {
      assert (tasks + [task])[1..] == tasks[1..] + [task];
      RunTasksPush(v, OnTask(v, t, tasks[0]), tasks[1..], task);
    }
  }

  lemma {:induction false} RunFollows(v: Routing, t: Transport, tasks: seq<Task>)
    requires FollowsTasks(t, []) && !RunTasks(v, t, tasks).crashed
    ensures FollowsTasks(RunTasks(v, t, tasks), tasks)
    decreases |tasks|
  {
    if tasks != [] {
      var before, last := tasks[..|tasks| - 1], tasks[|tasks| - 1];
      assert tasks == before + [last];
      RunTasksPush(v, t, before, last);
      RunFollows(v, t, before);
      StepFollows(v, RunTasks(v, t, before), before, last);
    }
  }

  /** The channels of a session without a peer connection come, open and are announced as any other's;
      only packets are not handed on. */
  lemma PeerlessFollowsTasks(v: Routing, r: DataState, u: DataState, tasks: seq<Task>)
    requires !r.Open? && !u.Open?
    ensures FollowsTasks(RunTasks(v, Peerless(r, u), tasks), tasks)
    ensures RunTasks(v, Peerless(r, u), tasks).log == []
  {
    IncomingDropsEverything(v, Peerless(r, u), tasks);
    RunFollows(v, Peerless(r, u), tasks);
  }

  /** Over any tasks, as intended always and as written clear of the null channel: a channel exists
      exactly if it was offered, its cached state is open exactly if the last callback found it open,
      and the session-open callback was made once for each callback that found both open. */
  lemma ChannelsFollowTasks(v: Routing, tasks: seq<Task>)
    requires v.AsIntended? || NullFree(UNCONNECTED, tasks)
    ensures var t := RunTasks(v, INITIALISED_OUTGOING, tasks);
            && (t.reliableUp <==> Offered(tasks, Reliable)) && (t.unreliableUp <==> Offered(tasks, Unreliable))
            && (t.reliableState.Open? <==> LastSeenOpen(tasks, Reliable))
            && (t.unreliableState.Open? <==> LastSeenOpen(tasks, Unreliable))
            && t.opens == OpenCalls(tasks)
  {
    IntendedKeepsChannels(INITIALISED_OUTGOING, tasks);
    WrittenRunsExactly(tasks);
    RunFollows(v, INITIALISED_OUTGOING, tasks);
  }

  /** After any such run a packet goes straight out on its own channel exactly if the last callback
      found that channel open, and is otherwise the last of its queue. */
  lemma SentAtOnceExactly(v: Routing, tasks: seq<Task>, kind: Kind, p: Packet)
    requires v.AsIntended? || NullFree(UNCONNECTED, tasks)
    ensures var t := RunTasks(v, INITIALISED_OUTGOING, tasks);
            var t' := RunTasks(v, INITIALISED_OUTGOING, tasks + [Send(kind, p)]);
            if LastSeenOpen(tasks, kind) then t' == t.(log := t.log + [Handoff(kind, kind, p)])
            else if kind.Reliable? then t' == t.(reliableQueue := t.reliableQueue + [p])
            else t' == t.(unreliableQueue := t.unreliableQueue + [p])
  {
    IntendedKeepsChannels(INITIALISED_OUTGOING, tasks);
    WrittenRunsExactly(tasks);
    RunAccounted(v, INITIALISED_OUTGOING, [], [], tasks);
    ChannelsFollowTasks(v, tasks);
    RunTasksPush(v, INITIALISED_OUTGOING, tasks, Send(kind, p));
    KeepsPeer(v, INITIALISED_OUTGOING, tasks);
  }

  lemma {:induction false} KeepsPeer(v: Routing, t: Transport, tasks: seq<Task>)
    ensures RunTasks(v, t, tasks).hasPeer == t.hasPeer
    decreases |tasks|
  {
    if tasks != [] { KeepsPeer(v, OnTask(v, t, tasks[0]), tasks[1..]); }
  }

  /** The cached state of a channel: as the last callback found it, Closed without a channel. */
  ghost function CachedState(first: DataState, tasks: seq<Task>, kind: Kind): DataState {
    if tasks == [] then first
    else
      var last := tasks[|tasks| - 1];
      if !last.Refreshes() then CachedState(first, tasks[..|tasks| - 1], kind)
      else if !Offered(tasks, kind) then Closed
      else if kind.Reliable? then last.reliable else last.unreliable
  }

  function StateOf(t: Transport, kind: Kind): DataState {
    if kind.Reliable? then t.reliableState else t.unreliableState
  }

  lemma StepCaches(v: Routing, t: Transport, task: Task, kind: Kind)
    requires !t.crashed
    ensures StateOf(OnTask(v, t, task), kind) ==
              if !task.Refreshes() then StateOf(t, kind)
              else if !(Up(t, kind) || Announces(task, kind)) then Closed
              else if kind.Reliable? then task.reliable else task.unreliable
  {
    OnlyRefreshesChange(v, t, task);
  }

  /** From any state without channels, in any run that does not crash. */
  lemma {:induction false} CachesExactly(v: Routing, t: Transport, tasks: seq<Task>, kind: Kind)
    requires !Up(t, kind) && !RunTasks(v, t, tasks).crashed
    ensures StateOf(RunTasks(v, t, tasks), kind) == CachedState(StateOf(t, kind), tasks, kind)
    decreases |tasks|
  {
    if tasks != [] {
      var before, last := tasks[..|tasks| - 1], tasks[|tasks| - 1];
      assert tasks == before + [last];
      RunTasksPush(v, t, before, last);
      CachesExactly(v, t, before, kind);
      GetsChannelExactly(v, t, before, kind);
      StepCaches(v, RunTasks(v, t, before), last, kind);
      OfferedPush(before, last, kind);
    }
  }

  // ---------------------------------------------------------------- what leaves when, from the tasks alone

  /** How many tasks there are up to the last callback that found no unreliable channel. */
  ghost function LastBlind(tasks: seq<Task>): (n: nat)
    ensures n <= |tasks|
  {
    if tasks == [] then 0
    else if tasks[|tasks| - 1].Refreshes() && !Offered(tasks, Unreliable) then |tasks|
    else LastBlind(tasks[..|tasks| - 1])
  }

  /** The unreliable packets that such a callback threw away. */
  ghost function ThrownAway(tasks: seq<Task>): seq<Packet> { Submitted(tasks[..LastBlind(tasks)], Unreliable) }

  /** The packets queued: those submitted while their channel was not seen open, since the last
      callback (unreliable), or since the last one that found a reliable channel (reliable). */
  ghost function Waiting(tasks: seq<Task>, kind: Kind): seq<Packet> {
    if tasks == [] then []
    else
      var before, last := tasks[..|tasks| - 1], tasks[|tasks| - 1];
      if last.Refreshes() then
        if kind.Reliable? && !Offered(tasks, Reliable) then Waiting(before, kind) else []
      else if last.Send? && last.kind == kind && !LastSeenOpen(before, kind) then Waiting(before, kind) + [last.packet]
      else Waiting(before, kind)
  }

  function HandedAs(channel: Kind, kind: Kind, q: seq<Packet>): seq<Handoff> {
    seq(|q|, i requires 0 <= i < |q| => Handoff(channel, kind, q[i]))
  }

  /** What a callback hands on of the packets waiting: those of each kind whose channel exists, the
      reliable ones first. */
  function Batch(v: Routing, reliable: bool, rs: seq<Packet>, unreliable: bool, us: seq<Packet>): seq<Handoff> {
    var channel := if v.AsIntended? then Unreliable else Reliable;
    (if reliable then HandedAs(Reliable, Reliable, rs) else [])
    + (if unreliable then HandedAs(channel, Unreliable, us) else [])
  }

  /** What a task hands on after the tasks before it: its own packet if the channel was seen open, or
      as a callback the waiting packets. */
  ghost function SentBy(v: Routing, before: seq<Task>, task: Task): seq<Handoff> {
    match task
    case NoOp => []
    case Send(kind, p) => if LastSeenOpen(before, kind) then [Handoff(kind, kind, p)] else []
    case _ => Batch(v, Offered(before + [task], Reliable), Waiting(before, Reliable),
                    Offered(before + [task], Unreliable), Waiting(before, Unreliable))
  }

  ghost function SentLog(v: Routing, tasks: seq<Task>): seq<Handoff> {
    if tasks == [] then []
    else SentLog(v, tasks[..|tasks| - 1]) + SentBy(v, tasks[..|tasks| - 1], tasks[|tasks| - 1])
  }

  ghost predicate SentAsTold(v: Routing, t: Transport, tasks: seq<Task>) {
    && t.log == SentLog(v, tasks)
    && t.reliableQueue == Waiting(tasks, Reliable) && t.unreliableQueue == Waiting(tasks, Unreliable)
  }

  lemma SentPush(v: Routing, tasks: seq<Task>, task: Task)
    ensures SentLog(v, tasks + [task]) == SentLog(v, tasks) + SentBy(v, tasks, task)
  {
    assert (tasks + [task])[..|tasks|] == tasks;
  }

  lemma WaitingPush(tasks: seq<Task>, task: Task, kind: Kind)
    ensures Waiting(tasks + [task], kind) ==
              if task.Refreshes() then
                if kind.Reliable? && !Offered(tasks + [task], Reliable) then Waiting(tasks, kind) else []
              else if task.Send? && task.kind == kind && !LastSeenOpen(tasks, kind) then
                Waiting(tasks, kind) + [task.packet]
              else Waiting(tasks, kind)
  {
    assert (tasks + [task])[..|tasks|] == tasks;
  }

  lemma TaggedIsHandedAs(channel: Kind, kind: Kind, q: seq<Packet>)
    ensures Tagged(channel, kind, q) == HandedAs(channel, kind, q)
  {
    TaggedAt(channel, kind, q);
  }

  lemma SendSentAsTold(v: Routing, t: Transport, tasks: seq<Task>, task: Task)
    requires !t.crashed && t.hasPeer && FollowsTasks(t, tasks) && OpenMeansDrained(t) && SentAsTold(v, t, tasks)
    requires !task.Refreshes()
    ensures SentAsTold(v, OnTask(v, t, task), tasks + [task])
  {
    SentPush(v, tasks, task);
    WaitingPush(tasks, task, Reliable);
    WaitingPush(tasks, task, Unreliable);
    Nothing(t.log);
  }

  /** What one flush hands on and leaves queued. */
  lemma FlushExactly(v: Routing, t: Transport)
    requires !Flush(v, t).crashed
    ensures var t' := Flush(v, t);
            && t'.log == t.log + Batch(v, t.reliableUp, t.reliableQueue, t.unreliableUp, t.unreliableQueue)
            && t'.reliableQueue == (if t.reliableUp then [] else t.reliableQueue) && t'.unreliableQueue == []
  {
    var channel := if v.AsIntended? then Unreliable else Reliable;
    TaggedIsHandedAs(Reliable, Reliable, t.reliableQueue);
    TaggedIsHandedAs(channel, Unreliable, t.unreliableQueue);
    var a := if t.reliableUp then HandedAs(Reliable, Reliable, t.reliableQueue) else [];
    var b := if t.unreliableUp then HandedAs(channel, Unreliable, t.unreliableQueue) else [];
    Associative(t.log, a, b);
    Nothing(t.log);
    Nothing(a);
    Nothing(t.log + a);
    Nothing(t.log + b);
  }

  lemma SentByRefresh(v: Routing, tasks: seq<Task>, task: Task)
    requires task.Refreshes()
    ensures SentBy(v, tasks, task) ==
              Batch(v, Offered(tasks + [task], Reliable), Waiting(tasks, Reliable),
                    Offered(tasks + [task], Unreliable), Waiting(tasks, Unreliable))
  {
  }

  lemma ToldByRefresh(v: Routing, t: Transport, tasks: seq<Task>, task: Task)
    requires task.Refreshes() && t.unreliableQueue == []
    requires t.log == SentLog(v, tasks) + SentBy(v, tasks, task)
    requires t.reliableQueue == if Offered(tasks + [task], Reliable) then [] else Waiting(tasks, Reliable)
    ensures SentAsTold(v, t, tasks + [task])
  {
    SentPush(v, tasks, task);
    WaitingPush(tasks, task, Reliable);
    WaitingPush(tasks, task, Unreliable);
  }

  lemma RefreshKeepsPackets(t: Transport, task: Task)
    requires task.Refreshes()
    ensures var t' := Refreshed(t, task);
            && t'.log == t.log && t'.reliableQueue == t.reliableQueue && t'.unreliableQueue == t.unreliableQueue
            && t'.hasPeer == t.hasPeer && t'.crashed == t.crashed
  {
  }

  lemma FlushTold(v: Routing, t: Transport, tasks: seq<Task>, task: Task)
    requires task.Refreshes() && FollowsTasks(t, tasks + [task]) && SentAsTold(v, t, tasks) && !Flush(v, t).crashed
    ensures SentAsTold(v, Flush(v, t), tasks + [task])
  {
    FlushExactly(v, t);
    SentByRefresh(v, tasks, task);
    ToldByRefresh(v, Flush(v, t), tasks, task);
  }

  lemma RefreshSentAsTold(v: Routing, t: Transport, tasks: seq<Task>, task: Task)
    requires !t.crashed && FollowsTasks(t, tasks) && SentAsTold(v, t, tasks)
    requires task.Refreshes() && !OnTask(v, t, task).crashed
    ensures SentAsTold(v, OnTask(v, t, task), tasks + [task])
  {
    var t1 := Refreshed(t, task);
    RefreshFollows(t, tasks, task);
    RefreshKeepsPackets(t, task);
    FlushTold(v, t1, tasks, task);
  }

  lemma {:induction false} RunSentAsTold(v: Routing, tasks: seq<Task>)
    requires !RunTasks(v, INITIALISED_OUTGOING, tasks).crashed
    ensures SentAsTold(v, RunTasks(v, INITIALISED_OUTGOING, tasks), tasks)
    decreases |tasks|
  {
    if tasks != [] {
      var before, last := tasks[..|tasks| - 1], tasks[|tasks| - 1];
      assert tasks == before + [last];
      RunTasksPush(v, INITIALISED_OUTGOING, before, last);
      RunSentAsTold(v, before);
      RunFollows(v, INITIALISED_OUTGOING, before);
      RunAccounted(v, INITIALISED_OUTGOING, [], [], before);
      KeepsPeer(v, INITIALISED_OUTGOING, before);
      var t := RunTasks(v, INITIALISED_OUTGOING, before);
      if last.Refreshes() { RefreshSentAsTold(v, t, before, last); } else { SendSentAsTold(v, t, before, last); }
    }
  }

  /** Over any tasks, as intended always and as written clear of the null channel: exactly which packet
      was handed on when, on which channel, and which are queued. */
  lemma LogFollowsTasks(v: Routing, tasks: seq<Task>)
    requires v.AsIntended? || NullFree(UNCONNECTED, tasks)
    ensures var t := RunTasks(v, INITIALISED_OUTGOING, tasks);
            && t.log == SentLog(v, tasks)
            && t.reliableQueue == Waiting(tasks, Reliable) && t.unreliableQueue == Waiting(tasks, Unreliable)
  {
    IntendedKeepsChannels(INITIALISED_OUTGOING, tasks);
    WrittenRunsExactly(tasks);
    RunSentAsTold(v, tasks);
  }

  lemma LastBlindPush(tasks: seq<Task>, task: Task)
    ensures LastBlind(tasks + [task]) ==
              if task.Refreshes() && !Offered(tasks + [task], Unreliable) then |tasks| + 1 else LastBlind(tasks)
  {
    assert (tasks + [task])[..|tasks|] == tasks;
  }

  /** Thrown away, then handed on, then queued, are the unreliable packets submitted. */
  ghost predicate UnreliableAccounted(t: Transport, tasks: seq<Task>) {
    && ThrownAway(tasks) + (Handed(t.log, Unreliable) + t.unreliableQueue) == Submitted(tasks, Unreliable)
    && (!Offered(tasks, Unreliable) ==> Handed(t.log, Unreliable) == [])
  }

  lemma ThrownAwayPush(tasks: seq<Task>, task: Task)
    ensures ThrownAway(tasks + [task]) ==
              if task.Refreshes() && !Offered(tasks + [task], Unreliable) then Submitted(tasks, Unreliable)
              else ThrownAway(tasks)
  {
    LastBlindPush(tasks, task);
    SubmittedConcat(tasks, [task], Unreliable);
    SubmittedOne(task, Unreliable);
    Nothing(Submitted(tasks, Unreliable));
    if task.Refreshes() && !Offered(tasks + [task], Unreliable) {
      assert (tasks + [task])[..|tasks| + 1] == tasks + [task];
    } else {
      assert (tasks + [task])[..LastBlind(tasks)] == tasks[..LastBlind(tasks)];
    }
  }

  lemma SubmittedPush(tasks: seq<Task>, task: Task, kind: Kind)
    ensures Submitted(tasks + [task], kind) == Submitted(tasks, kind) + SubmittedBy(task, kind)
  {
    SubmittedConcat(tasks, [task], kind);
    SubmittedOne(task, kind);
  }

  lemma SendUnreliableAccounted(t: Transport, tasks: seq<Task>, kind: Kind, p: Packet)
    requires t.hasPeer && FollowsTasks(t, tasks) && OpenMeansDrained(t) && UnreliableAccounted(t, tasks)
    ensures UnreliableAccounted(OnSend(t, kind, p), tasks + [Send(kind, p)])
  {
    var task := Send(kind, p);
    var thrown, handed := ThrownAway(tasks), Handed(t.log, Unreliable);
    ThrownAwayPush(tasks, task);
    SubmittedPush(tasks, task, Unreliable);
    OfferedPush(tasks, task, Unreliable);
    HandedPush(t.log, Handoff(kind, kind, p), Unreliable);
    Nothing(Submitted(tasks, Unreliable));
    Nothing(handed);
    Nothing(handed + [p]);
    Associative(handed, t.unreliableQueue, [p]);
    Associative(thrown, handed + t.unreliableQueue, [p]);
  }

  lemma FlushHands(v: Routing, t: Transport)
    requires !t.crashed && !Flush(v, t).crashed
    ensures Handed(Flush(v, t).log, Unreliable) ==
              Handed(t.log, Unreliable) + if t.unreliableUp then t.unreliableQueue else []
  {
    var t' := FlushReliable(t);
    HandedTagged(t.log, Reliable, Reliable, t.reliableQueue, Unreliable);
    HandedTagged(t'.log, if v.AsIntended? then Unreliable else Reliable, Unreliable, t.unreliableQueue, Unreliable);
    Nothing(Handed(t.log, Unreliable));
  }

  lemma RefreshUnreliableAccounted(v: Routing, t: Transport, tasks: seq<Task>, task: Task)
    requires !t.crashed && FollowsTasks(t, tasks) && UnreliableAccounted(t, tasks)
    requires task.Refreshes() && !OnTask(v, t, task).crashed
    ensures UnreliableAccounted(OnTask(v, t, task), tasks + [task])
  {
    var t1 := Refreshed(t, task);
    ThrownAwayPush(tasks, task);
    SubmittedPush(tasks, task, Unreliable);
    OfferedPush(tasks, task, Unreliable);
    RefreshFollows(t, tasks, task);
    FlushHands(v, t1);
    FlushExactly(v, t1);
    Nothing(Submitted(tasks, Unreliable));
    Nothing(Handed(t.log, Unreliable));
    Nothing(Handed(t.log, Unreliable) + t.unreliableQueue);
  }

  lemma {:induction false} RunUnreliableAccounted(v: Routing, tasks: seq<Task>)
    requires !RunTasks(v, INITIALISED_OUTGOING, tasks).crashed
    ensures UnreliableAccounted(RunTasks(v, INITIALISED_OUTGOING, tasks), tasks)
    decreases |tasks|
  {
    if tasks != [] {
      var before, last := tasks[..|tasks| - 1], tasks[|tasks| - 1];
      assert tasks == before + [last];
      RunTasksPush(v, INITIALISED_OUTGOING, before, last);
      RunUnreliableAccounted(v, before);
      RunFollows(v, INITIALISED_OUTGOING, before);
      RunAccounted(v, INITIALISED_OUTGOING, [], [], before);
      KeepsPeer(v, INITIALISED_OUTGOING, before);
      var t := RunTasks(v, INITIALISED_OUTGOING, before);
      if last.Refreshes() {
        RefreshUnreliableAccounted(v, t, before, last);
      } else if last.Send? {
        SendUnreliableAccounted(t, before, last.kind, last.packet);
      } else {
        ThrownAwayPush(before, last);
        SubmittedPush(before, last, Unreliable);
        OfferedPush(before, last, Unreliable);
        Nothing(Submitted(before, Unreliable));
      }
    }
  }

  lemma AllAfterTheLastBlind(tasks: seq<Task>, kept: seq<Packet>)
    requires ThrownAway(tasks) + kept == Submitted(tasks, Unreliable)
    ensures kept == Submitted(tasks[LastBlind(tasks)..], Unreliable)
  {
    var n := LastBlind(tasks);
    assert tasks == tasks[..n] + tasks[n..];
    SubmittedConcat(tasks[..n], tasks[n..], Unreliable);
    SameRest(ThrownAway(tasks), kept, Submitted(tasks[n..], Unreliable));
  }

  /** Unreliable packets are lost exactly by being submitted before the last callback that found no
      unreliable channel; all others are handed on or queued, in submission order. */
  lemma UnreliableExactly(v: Routing, tasks: seq<Task>)
    requires v.AsIntended? || NullFree(UNCONNECTED, tasks)
    ensures var t := RunTasks(v, INITIALISED_OUTGOING, tasks);
            && Handed(t.log, Unreliable) + t.unreliableQueue == Submitted(tasks[LastBlind(tasks)..], Unreliable)
            && ThrownAway(tasks) + (Handed(t.log, Unreliable) + t.unreliableQueue) == Submitted(tasks, Unreliable)
  {
    IntendedKeepsChannels(INITIALISED_OUTGOING, tasks);
    WrittenRunsExactly(tasks);
    RunUnreliableAccounted(v, tasks);
    var t := RunTasks(v, INITIALISED_OUTGOING, tasks);
    AllAfterTheLastBlind(tasks, Handed(t.log, Unreliable) + t.unreliableQueue);
  }

  lemma OpensAtPrefix(tasks: seq<Task>, n: nat, k: nat)
    requires k < n <= |tasks|
    ensures OpensAt(tasks[..n], k) <==> OpensAt(tasks, k)
  {
    assert tasks[..n][..k + 1] == tasks[..k + 1];
  }

  lemma PrefixNeverOpens(tasks: seq<Task>, n: nat)
    requires n <= |tasks|
    ensures (forall k :: 0 <= k < n ==> !OpensAt(tasks[..n], k)) <==> (forall k :: 0 <= k < n ==> !OpensAt(tasks, k))
  {
    forall k | 0 <= k < n ensures OpensAt(tasks[..n], k) <==> OpensAt(tasks, k) { OpensAtPrefix(tasks, n, k); }
  }

  lemma {:induction false} NoOpenCalls(tasks: seq<Task>)
    ensures OpenCalls(tasks) == 0 <==> forall k :: 0 <= k < |tasks| ==> !OpensAt(tasks, k)
  {
    if tasks != [] {
      NoOpenCalls(tasks[..|tasks| - 1]);
      PrefixNeverOpens(tasks, |tasks| - 1);
    }
  }

  ghost predicate OpensOnce(tasks: seq<Task>) {
    forall j, k :: 0 <= j < k < |tasks| ==> !(OpensAt(tasks, j) && OpensAt(tasks, k))
  }

  lemma OpensOncePrefix(tasks: seq<Task>)
    requires tasks != []
    ensures var n := |tasks| - 1;
            OpensOnce(tasks) <==>
              OpensOnce(tasks[..n]) && (OpensAt(tasks, n) ==> forall k :: 0 <= k < n ==> !OpensAt(tasks, k))
  {
    var n := |tasks| - 1;
    forall k | 0 <= k < n ensures OpensAt(tasks[..n], k) <==> OpensAt(tasks, k) { OpensAtPrefix(tasks, n, k); }
  }

  lemma {:induction false} AtMostOneOpenCall(tasks: seq<Task>)
    ensures OpenCalls(tasks) <= 1 <==> OpensOnce(tasks)
  {
    if tasks != [] {
      var n := |tasks| - 1;
      AtMostOneOpenCall(tasks[..n]);
      NoOpenCalls(tasks[..n]);
      PrefixNeverOpens(tasks, n);
      OpensOncePrefix(tasks);
    }
  }

  /** The session is announced as open at most once exactly if no two callbacks find both channels
      open. */
  lemma OpenedOnceExactly(v: Routing, tasks: seq<Task>)
    requires v.AsIntended? || NullFree(UNCONNECTED, tasks)
    ensures RunTasks(v, INITIALISED_OUTGOING, tasks).opens <= 1 <==> OpensOnce(tasks)
  {
    ChannelsFollowTasks(v, tasks);
    AtMostOneOpenCall(tasks);
  }

  /** Any state change of an open session announces it again. */
  lemma OpenIsRepeated(v: Routing)
    ensures var t := OnTask(v, INITIALISED_OUTGOING, DataChannel(RELIABLE_LABEL, Open, Open));
            RunTasks(v, t, [DataChannel("U", Open, Open), StateChange(Open, Open)]).opens == 2
  {
    assert "U" != RELIABLE_LABEL by { assert |"U"| != |RELIABLE_LABEL|; }
    var t := OnTask(v, INITIALISED_OUTGOING, DataChannel(RELIABLE_LABEL, Open, Open));
    TwoTasks(v, t, DataChannel("U", Open, Open), StateChange(Open, Open));
  }

  // ---------------------------------------------------------------- the labels of the code's own channels

  /** What InitializeOutgoing calls the two channels it creates. */
  const OWN_RELIABLE_LABEL := "&ReliableDataChannel"
  const OWN_UNRELIABLE_LABEL := "*UnreliableDataChannel"

  lemma OwnLabelsDiffer()
    ensures OWN_RELIABLE_LABEL != RELIABLE_LABEL && OWN_UNRELIABLE_LABEL != RELIABLE_LABEL
  {
    assert |OWN_RELIABLE_LABEL| == 20 && |OWN_UNRELIABLE_LABEL| == 22 && |RELIABLE_LABEL| == 19;
  }

  lemma FlushWithoutReliable(v: Routing, t: Transport)
    requires !t.reliableUp && Handed(t.log, Reliable) == []
    ensures !Flush(v, t).reliableUp && Handed(Flush(v, t).log, Reliable) == []
  {
    HandedTagged(t.log, Unreliable, Unreliable, t.unreliableQueue, Reliable);
    HandedTagged(t.log, Reliable, Unreliable, t.unreliableQueue, Reliable);
  }

  lemma StepWithoutReliable(v: Routing, t: Transport, task: Task)
    requires !t.reliableUp && Handed(t.log, Reliable) == [] && (task.DataChannel? ==> task.name != RELIABLE_LABEL)
    ensures !OnTask(v, t, task).reliableUp && Handed(OnTask(v, t, task).log, Reliable) == []
  {
    if task.Send? {
      HandedPush(t.log, Handoff(Unreliable, Unreliable, task.packet), Reliable);
    } else if task.Refreshes() {
      FlushWithoutReliable(v, Refreshed(t, task));
    }
  }

  /** A session whose peer offers only channels created by this code never gets a reliable one: no
      reliable packet is ever handed on. */
  lemma {:induction false} OwnLabelsAreNeverReliable(v: Routing, t: Transport, tasks: seq<Task>)
    requires !t.reliableUp && Handed(t.log, Reliable) == []
    requires forall k :: 0 <= k < |tasks| && tasks[k].DataChannel? ==>
                           tasks[k].name == OWN_RELIABLE_LABEL || tasks[k].name == OWN_UNRELIABLE_LABEL
    ensures !RunTasks(v, t, tasks).reliableUp && Handed(RunTasks(v, t, tasks).log, Reliable) == []
    decreases |tasks|
  {
    if tasks != [] {
      OwnLabelsDiffer();
      StepWithoutReliable(v, t, tasks[0]);
      OwnLabelsAreNeverReliable(v, OnTask(v, t, tasks[0]), tasks[1..]);
    }
  }
}
