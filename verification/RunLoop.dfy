/** The run-loop protocol of NetherNet::RunLoop: any number of workers ask `KeepGoing` while any
    number of posters run `UpdateSharedState`.  Each event below is one atomic action of one
    thread, so a sequence of events is one interleaving. */
module RunLoop {

  /** `Unknown` stands for an `mState` outside the enumeration (the field has no initialiser). */
  datatype ThreadState = Running | Suspended | Stopped | Unknown

  /** How often `UpdateSharedState` takes the mutex.  `Twice` is the text of the code: locking a
      `unique_lock` that already owns its mutex throws, which releases it again.  `Once` is the
      same function with the second `lock()` gone. */
  datatype Locking = Once | Twice

  datatype Worker =
    | Outside
    | Entering                      // KeepGoing called, mutex not yet held
    | Locked                        // in StateDispatch, mutex held
    | Decided(seen: ThreadState)    // mState has been read, mutex still held
    | Waiting                       // blocked in cv.wait, mutex released
    | Woken                         // leaving cv.wait, mutex not yet held again
    | Returned(keepGoing: bool)

  datatype Poster =
    | Idle
    | Requesting(want: ThreadState)
    | Holding(want: ThreadState)
    | HasRead(want: ThreadState, before: ThreadState)
    | HasWritten(want: ThreadState, before: ThreadState)
    | Notifying                     // mutex released, notify_all not yet called
    | Failed                        // left UpdateSharedState by an exception

  datatype Holder = Nobody | ByWorker(i: nat) | ByPoster(j: nat)

  datatype State = State(shared: ThreadState, holder: Holder, workers: seq<Worker>, posters: seq<Poster>)

  datatype Event =
    | CallKeepGoing(i: nat)
    | WorkerLock(i: nat)
    | WorkerRead(i: nat)
    | WorkerAct(i: nat)
    | SpuriousWake(i: nat)
    | Request(j: nat, want: ThreadState)
    | PosterLock(j: nat)
    | PosterRead(j: nat)
    | PosterWrite(j: nat)
    | PosterUnlock(j: nat)
    | NotifyAll(j: nat)
  {
    predicate Arrival() { CallKeepGoing? || Request? }
    predicate OfWorker() { CallKeepGoing? || WorkerLock? || WorkerRead? || WorkerAct? || SpuriousWake? }
  }

  predicate WorkerHolds(w: Worker) { w.Locked? || w.Decided? }
  predicate PosterHolds(p: Poster) { p.Holding? || p.HasRead? || p.HasWritten? }
  predicate Inside(w: Worker) { !w.Outside? && !w.Returned? }

  /** A poster that has changed the shared state and not yet called notify_all. */
  predicate NotifyOwed(p: Poster) { p.Notifying? || (p.HasWritten? && p.want != p.before) }

  predicate Enabled(s: State, e: Event) {
    if e.OfWorker() then
      e.i < |s.workers| &&
      var w := s.workers[e.i];
      match e
      case CallKeepGoing(_) => w.Outside? || w.Returned?
      case WorkerLock(_) => (w.Entering? || w.Woken?) && s.holder.Nobody?
      case WorkerRead(_) => w.Locked?
      case WorkerAct(_) => w.Decided?
      case _ => w.Waiting?
    else
      e.j < |s.posters| &&
      var p := s.posters[e.j];
      match e
      case Request(_, want) => (p.Idle? || p.Failed?) && !want.Unknown?
      case PosterLock(_) => p.Requesting? && s.holder.Nobody?
      case PosterRead(_) => p.Holding?
      case PosterWrite(_) => p.HasRead?
      case PosterUnlock(_) => p.HasWritten?
      case _ => p.Notifying?
  }

  function WakeAll(ws: seq<Worker>): (r: seq<Worker>)
    ensures |r| == |ws|
    ensures forall i :: 0 <= i < |ws| ==> r[i] == if ws[i].Waiting? then Woken else ws[i]
  {
    if ws == [] then []
    else [if ws[0].Waiting? then Woken else ws[0]] + WakeAll(ws[1..])
  }

  function SetWorker(s: State, i: nat, w: Worker): State
    requires i < |s.workers|
  {
    s.(workers := s.workers[i := w])
  }

  function SetPoster(s: State, j: nat, p: Poster): State
    requires j < |s.posters|
  {
    s.(posters := s.posters[j := p])
  }

  function Apply(v: Locking, s: State, e: Event): State
    requires Enabled(s, e)
  {
    match e
    case CallKeepGoing(i) => SetWorker(s, i, Entering)
    case WorkerLock(i) => SetWorker(s, i, Locked).(holder := ByWorker(i))
    case WorkerRead(i) => SetWorker(s, i, Decided(s.shared))
    case WorkerAct(i) =>
      var next := match s.workers[i].seen
                  case Stopped => Returned(false)
                  case Suspended => Waiting
                  case Running => Returned(true)
                  case Unknown => Returned(false);
      SetWorker(s, i, next).(holder := Nobody)
    case SpuriousWake(i) => SetWorker(s, i, Woken)
    case Request(j, want) => SetPoster(s, j, Requesting(want))
    case PosterLock(j) => SetPoster(s, j, Holding(s.posters[j].want)).(holder := ByPoster(j))
    case PosterRead(j) =>
      if v.Twice? then SetPoster(s, j, Failed).(holder := Nobody)
      else SetPoster(s, j, HasRead(s.posters[j].want, s.shared))
    case PosterWrite(j) =>
      var p := s.posters[j];
      SetPoster(s, j, HasWritten(p.want, p.before)).(shared := p.want)
    case PosterUnlock(j) =>
      var p := s.posters[j];
      SetPoster(s, j, if p.want != p.before then Notifying else Idle).(holder := Nobody)
    case NotifyAll(j) => SetPoster(s, j, Idle).(workers := WakeAll(s.workers))
  }

  // ---------------------------------------------------------------- runs

  predicate IsRun(v: Locking, s: State, es: seq<Event>)
    decreases |es|
  {
    es == [] || (Enabled(s, es[0]) && IsRun(v, Apply(v, s, es[0]), es[1..]))
  }

  function RunEnd(v: Locking, s: State, es: seq<Event>): State
    requires IsRun(v, s, es)
    decreases |es|
  {
    if es == [] then s else RunEnd(v, Apply(v, s, es[0]), es[1..])
  }

  ghost predicate Init(s: State) {
    && s.holder == Nobody
    && (forall i :: 0 <= i < |s.workers| ==> s.workers[i] == Outside)
    && (forall j :: 0 <= j < |s.posters| ==> s.posters[j] == Idle)
  }

  // ---------------------------------------------------------------- safety

  /** The mutex is held by exactly the thread whose program counter says so. */
  ghost predicate MutualExclusion(s: State) {
    && (forall i: nat :: i < |s.workers| ==> (WorkerHolds(s.workers[i]) <==> s.holder == ByWorker(i)))
    && (forall j: nat :: j < |s.posters| ==> (PosterHolds(s.posters[j]) <==> s.holder == ByPoster(j)))
    && (s.holder.ByWorker? ==> s.holder.i < |s.workers|)
    && (s.holder.ByPoster? ==> s.holder.j < |s.posters|)
  }

  /** What a thread remembers of `mState` under the mutex is still true. */
  ghost predicate ReadsAreCurrent(s: State) {
    && (forall i :: 0 <= i < |s.workers| && s.workers[i].Decided? ==> s.workers[i].seen == s.shared)
    && (forall j :: 0 <= j < |s.posters| && s.posters[j].HasRead? ==> s.posters[j].before == s.shared)
    && (forall j :: 0 <= j < |s.posters| && s.posters[j].HasWritten? ==> s.posters[j].want == s.shared)
  }

  ghost predicate SomeNotifyOwed(s: State) {
    exists j :: 0 <= j < |s.posters| && NotifyOwed(s.posters[j])
  }

  ghost predicate NoLostWakeup(s: State) {
    forall i :: 0 <= i < |s.workers| && s.workers[i].Waiting? ==> s.shared == Suspended || SomeNotifyOwed(s)
  }

  ghost predicate Inv(s: State) {
    MutualExclusion(s) && ReadsAreCurrent(s) && NoLostWakeup(s)
  }

  lemma OwedSurvives(s: State, s': State, j: nat)
    requires |s.posters| == |s'.posters| && j < |s.posters|
    requires forall k :: 0 <= k < |s.posters| && k != j ==> s'.posters[k] == s.posters[k]
    requires NotifyOwed(s.posters[j]) ==> NotifyOwed(s'.posters[j])
    ensures SomeNotifyOwed(s) ==> SomeNotifyOwed(s')
  {
    if SomeNotifyOwed(s) {
      var k :| 0 <= k < |s.posters| && NotifyOwed(s.posters[k]);
      assert NotifyOwed(s'.posters[k]);
    }
  }

  lemma StepKeepsMutualExclusion(v: Locking, s: State, e: Event)
    requires MutualExclusion(s) && Enabled(s, e)
    ensures MutualExclusion(Apply(v, s, e))
  {
  }

  lemma StepKeepsReadsCurrent(v: Locking, s: State, e: Event)
    requires MutualExclusion(s) && ReadsAreCurrent(s) && Enabled(s, e)
    ensures ReadsAreCurrent(Apply(v, s, e))
  {
  }

  lemma StepLosesNoWakeup(v: Locking, s: State, e: Event)
    requires ReadsAreCurrent(s) && NoLostWakeup(s) && Enabled(s, e)
    ensures NoLostWakeup(Apply(v, s, e))
  {
    var s' := Apply(v, s, e);
    if e.OfWorker() {
      assert s'.posters == s.posters;
    } else if !e.NotifyAll? {
      OwedSurvives(s, s', e.j);
      if e.PosterWrite? && s.shared != s'.shared {
        assert NotifyOwed(s'.posters[e.j]);
      }
    }
  }

  lemma StepKeepsInv(v: Locking, s: State, e: Event)
    requires Inv(s) && Enabled(s, e)
    ensures Inv(Apply(v, s, e))
  {
    StepKeepsMutualExclusion(v, s, e);
    StepKeepsReadsCurrent(v, s, e);
    StepLosesNoWakeup(v, s, e);
  }

  /** In every reachable interleaving a blocked worker is justified: the state is Suspended or the
      poster that changed it has not run its notify_all yet. */
  lemma {:induction false} NoLostWakeupInAnyRun(v: Locking, s: State, es: seq<Event>)
    requires (Init(s) || Inv(s)) && IsRun(v, s, es)
    ensures Inv(RunEnd(v, s, es))
    decreases |es|
  {
    if es != [] {
      StepKeepsInv(v, s, es[0]);
      NoLostWakeupInAnyRun(v, Apply(v, s, es[0]), es[1..]);
    }
  }

  /** KeepGoing returns only in a state that is not Suspended, and true exactly in Running. */
  lemma ReturnsAreTruthful(v: Locking, s: State, e: Event, i: nat)
    requires Inv(s) && Enabled(s, e) && i < |s.workers|
    requires !s.workers[i].Returned? && Apply(v, s, e).workers[i].Returned?
    ensures s.shared != Suspended && Apply(v, s, e).shared == s.shared
    ensures Apply(v, s, e).workers[i].keepGoing <==> s.shared == Running
  {
  }

  // ---------------------------------------------------------------- termination once settled

  /** No poster can change the shared state any more, and it is not Suspended. */
  ghost predicate Settled(s: State) {
    && s.shared != Suspended
    && forall j :: 0 <= j < |s.posters| ==>
         !s.posters[j].Requesting? && !s.posters[j].Holding? && !s.posters[j].HasRead?
  }

  function WorkerRank(w: Worker): nat {
    match w
    case Outside => 0
    case Returned(_) => 0
    case Decided(_) => 1
    case Locked => 2
    case Entering => 3
    case Woken => 3
    case Waiting => 4
  }

  function PosterRank(p: Poster): nat {
    if p.HasWritten? then 2 else if p.Notifying? then 1 else 0
  }

  function WorkersRank(ws: seq<Worker>): nat {
    if ws == [] then 0 else WorkerRank(ws[0]) + WorkersRank(ws[1..])
  }

  function PostersRank(ps: seq<Poster>): nat {
    if ps == [] then 0 else PosterRank(ps[0]) + PostersRank(ps[1..])
  }

  function Measure(s: State): nat { WorkersRank(s.workers) + PostersRank(s.posters) }

  lemma {:induction false} WorkersRankUpdate(ws: seq<Worker>, i: nat, w: Worker)
    requires i < |ws|
    ensures WorkersRank(ws[i := w]) + WorkerRank(ws[i]) == WorkersRank(ws) + WorkerRank(w)
  {
    if i == 0 {
      assert ws[0 := w][1..] == ws[1..];
    } else {
      WorkersRankUpdate(ws[1..], i - 1, w);
      assert ws[i := w][1..] == ws[1..][i - 1 := w];
    }
  }

  lemma {:induction false} PostersRankUpdate(ps: seq<Poster>, j: nat, p: Poster)
    requires j < |ps|
    ensures PostersRank(ps[j := p]) + PosterRank(ps[j]) == PostersRank(ps) + PosterRank(p)
  {
    if j == 0 {
      assert ps[0 := p][1..] == ps[1..];
    } else {
      PostersRankUpdate(ps[1..], j - 1, p);
      assert ps[j := p][1..] == ps[1..][j - 1 := p];
    }
  }

  lemma {:induction false} WakeAllLowersRank(ws: seq<Worker>)
    ensures WorkersRank(WakeAll(ws)) <= WorkersRank(ws)
  {
    if ws != [] {
      WakeAllLowersRank(ws[1..]);
      assert WakeAll(ws)[1..] == WakeAll(ws[1..]);
    }
  }

  /** Every internal step of a settled state, spurious wakes included, lowers the measure. */
  lemma SettledStep(v: Locking, s: State, e: Event)
    requires Inv(s) && Settled(s) && Enabled(s, e) && !e.Arrival()
    ensures Settled(Apply(v, s, e)) && Apply(v, s, e).shared == s.shared
    ensures Measure(Apply(v, s, e)) < Measure(s)
  {
    var s' := Apply(v, s, e);
    if e.OfWorker() {
      WorkersRankUpdate(s.workers, e.i, s'.workers[e.i]);
    } else {
      PostersRankUpdate(s.posters, e.j, s'.posters[e.j]);
      WakeAllLowersRank(s.workers);
    }
  }

  /** A settled state with a worker still inside KeepGoing is never stuck. */
  lemma SettledProgress(s: State, i: nat) returns (e: Event)
    requires Inv(s) && Settled(s) && i < |s.workers| && Inside(s.workers[i])
    ensures Enabled(s, e) && !e.Arrival()
  {
    match s.holder
    case ByWorker(k) => e := if s.workers[k].Locked? then WorkerRead(k) else WorkerAct(k);
    case ByPoster(k) => e := PosterUnlock(k);
    case Nobody =>
      if s.workers[i].Waiting? {
        var k :| 0 <= k < |s.posters| && NotifyOwed(s.posters[k]);
        e := NotifyAll(k);
      } else {
        e := WorkerLock(i);
      }
  }

  /** Each worker inside at `s` is at `t` still inside or has returned the settled answer. */
  ghost predicate Answering(s: State, t: State) {
    && |t.workers| == |s.workers| && t.shared == s.shared
    && forall i :: 0 <= i < |s.workers| ==>
         if Inside(s.workers[i]) then Inside(t.workers[i]) || t.workers[i] == Returned(s.shared == Running)
         else t.workers[i] == s.workers[i]
  }

  lemma SettledStepAnswers(v: Locking, s: State, e: Event)
    requires Inv(s) && Settled(s) && Enabled(s, e) && !e.Arrival()
    ensures Answering(s, Apply(v, s, e))
  {
  }

  ghost predicate Quiescent(s: State) {
    forall e: Event :: Enabled(s, e) ==> e.Arrival()
  }

  /** Once settled and with no further calls or requests, every schedule is finite (at most
      `Measure(s)` steps), and when nothing more can happen every worker that was inside has
      returned, with true exactly if the state is Running. */
  lemma {:induction false} SettledRunsReturn(v: Locking, s: State, es: seq<Event>)
    requires Inv(s) && Settled(s) && IsRun(v, s, es)
    requires forall k :: 0 <= k < |es| ==> !es[k].Arrival()
    ensures |es| + Measure(RunEnd(v, s, es)) <= Measure(s)
    ensures Answering(s, RunEnd(v, s, es))
    ensures Quiescent(RunEnd(v, s, es)) ==>
              forall i :: 0 <= i < |s.workers| && Inside(s.workers[i]) ==>
                RunEnd(v, s, es).workers[i] == Returned(s.shared == Running)
    decreases |es|
  {
    if es == [] {
      if i :| 0 <= i < |s.workers| && Inside(s.workers[i]) {
        var e := SettledProgress(s, i);
      }
    } else {
      var s' := Apply(v, s, es[0]);
      StepKeepsInv(v, s, es[0]);
      SettledStep(v, s, es[0]);
      SettledStepAnswers(v, s, es[0]);
      SettledRunsReturn(v, s', es[1..]);
    }
  }

  /** How often worker `i` moves inside KeepGoing. */
  function OwnSteps(es: seq<Event>, i: nat): nat {
    if es == [] then 0
    else (if es[0].OfWorker() && es[0].i == i && !es[0].CallKeepGoing? then 1 else 0) + OwnSteps(es[1..], i)
  }

  lemma SettledStepForOne(v: Locking, s: State, e: Event, i: nat)
    requires Inv(s) && Settled(s) && Enabled(s, e) && !e.Request? && e != CallKeepGoing(i)
    requires i < |s.workers| && Inside(s.workers[i])
    ensures var s' := Apply(v, s, e);
            && Settled(s') && s'.shared == s.shared && i < |s'.workers|
            && WorkerRank(s'.workers[i]) + OwnSteps([e], i) <= WorkerRank(s.workers[i])
            && (Inside(s'.workers[i]) || s'.workers[i] == Returned(s.shared == Running))
  {
    assert [e][1..] == [];
  }

  lemma {:induction false} ReturnedStays(v: Locking, s: State, es: seq<Event>, i: nat)
    requires IsRun(v, s, es) && i < |s.workers| && s.workers[i].Returned?
    requires forall k :: 0 <= k < |es| ==> es[k] != CallKeepGoing(i)
    ensures i < |RunEnd(v, s, es).workers| && RunEnd(v, s, es).workers[i] == s.workers[i] && OwnSteps(es, i) == 0
    decreases |es|
  {
    if es != [] { ReturnedStays(v, Apply(v, s, es[0]), es[1..], i); }
  }

  /** Even while other workers keep calling KeepGoing, a worker inside a settled state makes at most
      four moves, at most `WorkerRank` of where it stands, and leaves only with the settled answer. */
  lemma {:induction false} SettledWorkerReturns(v: Locking, s: State, es: seq<Event>, i: nat)
    requires Inv(s) && Settled(s) && IsRun(v, s, es) && i < |s.workers| && Inside(s.workers[i])
    requires forall k :: 0 <= k < |es| ==> !es[k].Request? && es[k] != CallKeepGoing(i)
    ensures i < |RunEnd(v, s, es).workers|
    ensures OwnSteps(es, i) + WorkerRank(RunEnd(v, s, es).workers[i]) <= WorkerRank(s.workers[i]) <= 4
    ensures Inside(RunEnd(v, s, es).workers[i]) || RunEnd(v, s, es).workers[i] == Returned(s.shared == Running)
    decreases |es|
  {
    if es != [] {
      var s' := Apply(v, s, es[0]);
      StepKeepsInv(v, s, es[0]);
      SettledStepForOne(v, s, es[0], i);
      assert [es[0]][1..] == [];
      if Inside(s'.workers[i]) {
        SettledWorkerReturns(v, s', es[1..], i);
      } else {
        ReturnedStays(v, s', es[1..], i);
      }
    }
  }

  // ---------------------------------------------------------------- blocking

  /** A worker that acts on a Suspended state, and on no other, blocks; the mutex is free then. */
  lemma SuspendedBlocks(v: Locking, s: State, i: nat)
    requires Inv(s) && Enabled(s, WorkerAct(i))
    ensures var s' := Apply(v, s, WorkerAct(i));
            s'.holder == Nobody && (s'.workers[i] == Waiting <==> s.shared == Suspended)
  {
  }

  predicate Wakes(e: Event, i: nat) { e == SpuriousWake(i) || e.NotifyAll? }

  /** Only a notify_all or a spurious wake ends a wait; the latter can come at any time. */
  lemma BlockedStep(v: Locking, s: State, e: Event, i: nat)
    requires Enabled(s, e) && i < |s.workers| && s.workers[i].Waiting?
    ensures Enabled(s, SpuriousWake(i))
    ensures |Apply(v, s, e).workers| == |s.workers|
    ensures Apply(v, s, e).workers[i] == if Wakes(e, i) then Woken else Waiting
  {
  }

  /** Over any run without them a blocked worker stays blocked and makes no move. */
  lemma {:induction false} BlockedUntilWoken(v: Locking, s: State, es: seq<Event>, i: nat)
    requires IsRun(v, s, es) && i < |s.workers| && s.workers[i].Waiting?
    requires forall k :: 0 <= k < |es| ==> !Wakes(es[k], i)
    ensures i < |RunEnd(v, s, es).workers| && RunEnd(v, s, es).workers[i] == Waiting
    ensures OwnSteps(es, i) == 0
    decreases |es|
  {
    if es != [] {
      BlockedStep(v, s, es[0], i);
      assert !(es[0].OfWorker() && es[0].i == i);
      BlockedUntilWoken(v, Apply(v, s, es[0]), es[1..], i);
    }
  }

  lemma RunCons(v: Locking, s: State, e: Event, es: seq<Event>)
    requires Enabled(s, e) && IsRun(v, Apply(v, s, e), es)
    ensures IsRun(v, s, [e] + es) && RunEnd(v, s, [e] + es) == RunEnd(v, Apply(v, s, e), es)
  {
    assert ([e] + es)[1..] == es;
  }

  /** A call that nobody disturbs, from any state with a free mutex: it returns true in Running, blocks
      in Suspended and returns false otherwise, and changes nothing else. */
  lemma UndisturbedCall(v: Locking, s: State, i: nat) returns (es: seq<Event>)
    requires s.holder == Nobody && i < |s.workers| && !Inside(s.workers[i])
    ensures es == [CallKeepGoing(i), WorkerLock(i), WorkerRead(i), WorkerAct(i)] && IsRun(v, s, es)
    ensures RunEnd(v, s, es) == SetWorker(s, i, if s.shared == Running then Returned(true)
                                                else if s.shared == Suspended then Waiting
                                                else Returned(false))
  {
    var called := SetWorker(s, i, Entering);
    var locked := SetWorker(s, i, Locked).(holder := ByWorker(i));
    var decided := SetWorker(s, i, Decided(s.shared)).(holder := ByWorker(i));
    assert Apply(v, called, WorkerLock(i)) == locked && Apply(v, locked, WorkerRead(i)) == decided;
    RunCons(v, decided, WorkerAct(i), []);
    RunCons(v, locked, WorkerRead(i), [WorkerAct(i)] + []);
    RunCons(v, called, WorkerLock(i), [WorkerRead(i)] + ([WorkerAct(i)] + []));
    RunCons(v, s, CallKeepGoing(i), [WorkerLock(i)] + ([WorkerRead(i)] + ([WorkerAct(i)] + [])));
    es := [CallKeepGoing(i), WorkerLock(i), WorkerRead(i), WorkerAct(i)];
    assert es == [CallKeepGoing(i)] + ([WorkerLock(i)] + ([WorkerRead(i)] + ([WorkerAct(i)] + [])));
  }

  /** Nothing can happen but new calls, new requests and spurious wakes. */
  ghost predicate Still(s: State) {
    forall e: Event :: Enabled(s, e) ==> e.Arrival() || e.SpuriousWake?
  }

  ghost predicate NobodyMoves(s: State) {
    && (forall i :: 0 <= i < |s.workers| && Inside(s.workers[i]) ==> s.workers[i].Waiting?)
    && (forall j :: 0 <= j < |s.posters| ==> s.posters[j].Idle? || s.posters[j].Failed?)
  }

  lemma SomebodyMoves(s: State) returns (e: Event)
    requires Inv(s) && !NobodyMoves(s)
    ensures Enabled(s, e) && !e.Arrival() && !e.SpuriousWake?
  {
    match s.holder
    case ByWorker(k) => e := if s.workers[k].Locked? then WorkerRead(k) else WorkerAct(k);
    case ByPoster(k) =>
      e := if s.posters[k].Holding? then PosterRead(k)
           else if s.posters[k].HasRead? then PosterWrite(k)
           else PosterUnlock(k);
    case Nobody =>
      if j :| 0 <= j < |s.posters| && !s.posters[j].Idle? && !s.posters[j].Failed? {
        e := if s.posters[j].Notifying? then NotifyAll(j) else PosterLock(j);
      } else {
        var i :| 0 <= i < |s.workers| && Inside(s.workers[i]) && !s.workers[i].Waiting?;
        e := WorkerLock(i);
      }
  }

  /** The loop stands still exactly if every worker inside is blocked and no request is under way; a
      worker blocked then is blocked because the state is Suspended. */
  lemma StillExactly(s: State)
    requires Inv(s)
    ensures Still(s) <==> NobodyMoves(s)
    ensures Still(s) ==> forall i :: 0 <= i < |s.workers| && s.workers[i].Waiting? ==> s.shared == Suspended
  {
    if !NobodyMoves(s) { var e := SomebodyMoves(s); }
    if NobodyMoves(s) {
      forall e: Event | Enabled(s, e) ensures e.Arrival() || e.SpuriousWake? {}
    }
  }

  // ---------------------------------------------------------------- the second lock()

  ghost predicate NeverWritten(s: State) {
    forall j :: 0 <= j < |s.posters| ==> !s.posters[j].HasRead? && !s.posters[j].HasWritten? && !s.posters[j].Notifying?
  }

  /** As written, no request ever takes effect: the shared state keeps its first value, and if that
      is Suspended no KeepGoing call ever returns. */
  lemma {:induction false} DoubleLockFreezesTheState(s: State, es: seq<Event>)
    requires Inv(s) && NeverWritten(s) && IsRun(Twice, s, es)
    ensures RunEnd(Twice, s, es).shared == s.shared
    ensures |RunEnd(Twice, s, es).workers| == |s.workers|
    ensures s.shared == Suspended ==>
              forall i :: 0 <= i < |s.workers| && !s.workers[i].Returned? ==> !RunEnd(Twice, s, es).workers[i].Returned?
    decreases |es|
  {
    if es != [] {
      StepKeepsInv(Twice, s, es[0]);
      DoubleLockFreezesTheState(Apply(Twice, s, es[0]), es[1..]);
    }
  }

  // ---------------------------------------------------------------- delivery of requests

  function RequestRank(p: Poster): nat {
    match p
    case Idle => 0
    case Failed => 0
    case Notifying => 1
    case HasWritten(_, _) => 2
    case HasRead(_, _) => 3
    case Holding(_) => 4
    case Requesting(_) => 5
  }

  function PosterSteps(es: seq<Event>, j: nat): nat {
    if es == [] then 0
    else (if !es[0].OfWorker() && es[0].j == j && !es[0].Request? then 1 else 0) + PosterSteps(es[1..], j)
  }

  lemma PosterStep(v: Locking, s: State, e: Event, j: nat)
    requires Enabled(s, e) && j < |s.posters| && !(e.Request? && e.j == j)
    ensures var s' := Apply(v, s, e);
            |s'.posters| == |s.posters| && RequestRank(s'.posters[j]) + PosterSteps([e], j) <= RequestRank(s.posters[j])
  {
    assert [e][1..] == [];
  }

  /** Whatever everybody else does, a request is over after at most five moves of its own. */
  lemma {:induction false} RequestsEnd(v: Locking, s: State, es: seq<Event>, j: nat)
    requires IsRun(v, s, es) && j < |s.posters|
    requires forall k :: 0 <= k < |es| ==> !(es[k].Request? && es[k].j == j)
    ensures |RunEnd(v, s, es).posters| == |s.posters|
    ensures PosterSteps(es, j) + RequestRank(RunEnd(v, s, es).posters[j]) <= RequestRank(s.posters[j]) <= 5
    decreases |es|
  {
    if es != [] {
      PosterStep(v, s, es[0], j);
      RequestsEnd(v, Apply(v, s, es[0]), es[1..], j);
      assert [es[0]][1..] == [];
    }
  }

  /** No reachable state with a request under way is stuck. */
  lemma RequestProgress(s: State, j: nat) returns (e: Event)
    requires Inv(s) && j < |s.posters| && RequestRank(s.posters[j]) > 0
    ensures Enabled(s, e) && !e.Arrival()
  {
    if s.posters[j].Notifying? {
      e := NotifyAll(j);
    } else {
      match s.holder
      case Nobody => e := PosterLock(j);
      case ByWorker(k) => e := if s.workers[k].Locked? then WorkerRead(k) else WorkerAct(k);
      case ByPoster(k) =>
        e := if s.posters[k].Holding? then PosterRead(k)
             else if s.posters[k].HasRead? then PosterWrite(k)
             else PosterUnlock(k);
    }
  }

  /** What poster `j` asked for last. */
  function LastRequest(es: seq<Event>, j: nat): ThreadState {
    if es == [] then Unknown
    else
      var e := es[|es| - 1];
      if e.Request? && e.j == j then e.want else LastRequest(es[..|es| - 1], j)
  }

  /** What the poster that wrote last had asked for, or the first value. */
  function LastWritten(first: ThreadState, es: seq<Event>): ThreadState {
    if es == [] then first
    else
      var before, e := es[..|es| - 1], es[|es| - 1];
      if e.PosterWrite? then LastRequest(before, e.j) else LastWritten(first, before)
  }

  lemma {:induction false} RunPush(v: Locking, s: State, es: seq<Event>, e: Event)
    requires IsRun(v, s, es + [e])
    ensures IsRun(v, s, es) && Enabled(RunEnd(v, s, es), e)
    ensures RunEnd(v, s, es + [e]) == Apply(v, RunEnd(v, s, es), e)
    decreases |es|
  {
    if es == [] {
      assert ([] + [e])[1..] == [];
    } else {
      assert (es + [e])[1..] == es[1..] + [e];
      RunPush(v, Apply(v, s, es[0]), es[1..], e);
    }
  }

  /** A request under way carries what its poster asked for last. */
  ghost predicate Carries(s: State, es: seq<Event>) {
    forall j :: 0 <= j < |s.posters| && RequestRank(s.posters[j]) >= 2 ==> s.posters[j].want == LastRequest(es, j)
  }

  lemma LastRequestPush(es: seq<Event>, e: Event, j: nat)
    ensures LastRequest(es + [e], j) == if e.Request? && e.j == j then e.want else LastRequest(es, j)
  {
    assert (es + [e])[..|es|] == es;
  }

  lemma StepCarries(v: Locking, s: State, es: seq<Event>, e: Event)
    requires Carries(s, es) && Enabled(s, e)
    ensures Carries(Apply(v, s, e), es + [e])
    ensures Apply(v, s, e).shared == if e.PosterWrite? then LastRequest(es, e.j) else s.shared
  {
    var s' := Apply(v, s, e);
    forall j | 0 <= j < |s'.posters| && RequestRank(s'.posters[j]) >= 2
      ensures s'.posters[j].want == LastRequest(es + [e], j) {
      LastRequestPush(es, e, j);
    }
  }

  /** In every run the shared state is what the poster that wrote last had asked for. */
  lemma {:induction false} StateIsLastWritten(v: Locking, s: State, es: seq<Event>)
    requires Init(s) && IsRun(v, s, es)
    ensures RunEnd(v, s, es).shared == LastWritten(s.shared, es) && Carries(RunEnd(v, s, es), es)
    decreases |es|
  {
    if es != [] {
      var before, e := es[..|es| - 1], es[|es| - 1];
      assert es == before + [e];
      RunPush(v, s, before, e);
      StateIsLastWritten(v, s, before);
      StepCarries(v, RunEnd(v, s, before), before, e);
    }
  }

  lemma OthersLeavePoster(v: Locking, s: State, e: Event, j: nat)
    requires Enabled(s, e) && j < |s.posters| && (e.OfWorker() || e.j != j)
    ensures |Apply(v, s, e).posters| == |s.posters| && Apply(v, s, e).posters[j] == s.posters[j]
  {
  }

  /** A poster that owes a notify_all and gets to its end has made it. */
  lemma {:induction false} OwedIsPaid(s: State, es: seq<Event>, j: nat)
    requires IsRun(Once, s, es) && j < |s.posters| && NotifyOwed(s.posters[j])
    requires forall k :: 0 <= k < |es| ==> !(es[k].Request? && es[k].j == j)
    requires j < |RunEnd(Once, s, es).posters| && RunEnd(Once, s, es).posters[j].Idle?
    ensures NotifyAll(j) in es
    decreases |es|
  {
    if es[0] != NotifyAll(j) {
      if es[0].OfWorker() || es[0].j != j { OthersLeavePoster(Once, s, es[0], j); }
      OwedIsPaid(Apply(Once, s, es[0]), es[1..], j);
      assert NotifyAll(j) in es[1..];
    }
  }

  /** A poster that changed nothing makes none. */
  lemma {:induction false} NothingOwed(s: State, es: seq<Event>, j: nat)
    requires IsRun(Once, s, es) && j < |s.posters|
    requires s.posters[j].Idle? || (s.posters[j].HasWritten? && s.posters[j].want == s.posters[j].before)
    requires forall k :: 0 <= k < |es| ==> !(es[k].Request? && es[k].j == j)
    ensures NotifyAll(j) !in es
    decreases |es|
  {
    if es != [] {
      if es[0].OfWorker() || es[0].j != j { OthersLeavePoster(Once, s, es[0], j); }
      NothingOwed(Apply(Once, s, es[0]), es[1..], j);
      assert es == [es[0]] + es[1..];
    }
  }

  /** The next write of poster `j` leaves the state it wants, and is followed by its notify_all exactly
      if that changed anything. */
  ghost predicate Delivered(s: State, es: seq<Event>, j: nat, want: ThreadState)
    requires IsRun(Once, s, es)
    decreases |es|
  {
    es != [] &&
    var s' := Apply(Once, s, es[0]);
    if es[0] == PosterWrite(j) then s'.shared == want && (s.shared != want <==> NotifyAll(j) in es[1..])
    else Delivered(s', es[1..], j, want)
  }

  lemma WriteIsDelivered(s: State, es: seq<Event>, j: nat)
    requires Inv(s) && IsRun(Once, s, es) && es != [] && es[0] == PosterWrite(j) && j < |s.posters|
    requires forall k :: 0 <= k < |es| ==> !(es[k].Request? && es[k].j == j)
    requires j < |RunEnd(Once, s, es).posters| && RunEnd(Once, s, es).posters[j].Idle?
    ensures Delivered(s, es, j, s.posters[j].want)
  {
    var s' := Apply(Once, s, es[0]);
    if s.shared != s.posters[j].want { OwedIsPaid(s', es[1..], j); } else { NothingOwed(s', es[1..], j); }
  }

  lemma {:induction false} NeverFails(s: State, es: seq<Event>, j: nat)
    requires IsRun(Once, s, es) && j < |s.posters| && !s.posters[j].Failed?
    requires j < |RunEnd(Once, s, es).posters|
    ensures !RunEnd(Once, s, es).posters[j].Failed?
    decreases |es|
  {
    if es != [] {
      if es[0].OfWorker() || es[0].j != j { OthersLeavePoster(Once, s, es[0], j); }
      NeverFails(Apply(Once, s, es[0]), es[1..], j);
    }
  }

  /** With one acquisition, in every schedule: a request that has come to its end has left the state
      it asked for, and has called notify_all since exactly if that changed the state. */
  lemma {:induction false} EveryRequestDelivers(s: State, es: seq<Event>, j: nat)
    requires Inv(s) && IsRun(Once, s, es) && j < |s.posters| && RequestRank(s.posters[j]) >= 3
    requires forall k :: 0 <= k < |es| ==> !(es[k].Request? && es[k].j == j)
    requires j < |RunEnd(Once, s, es).posters| && RequestRank(RunEnd(Once, s, es).posters[j]) == 0
    ensures RunEnd(Once, s, es).posters[j].Idle? && Delivered(s, es, j, s.posters[j].want)
    decreases |es|
  {
    NeverFails(s, es, j);
    if es[0] == PosterWrite(j) {
      WriteIsDelivered(s, es, j);
    } else {
      if es[0].OfWorker() || es[0].j != j { OthersLeavePoster(Once, s, es[0], j); }
      StepKeepsInv(Once, s, es[0]);
      EveryRequestDelivers(Apply(Once, s, es[0]), es[1..], j);
    }
  }

  lemma {:induction false} FailedStays(s: State, es: seq<Event>, j: nat)
    requires IsRun(Twice, s, es) && j < |s.posters| && s.posters[j].Failed?
    requires forall k :: 0 <= k < |es| ==> !(es[k].Request? && es[k].j == j)
    ensures j < |RunEnd(Twice, s, es).posters| && RunEnd(Twice, s, es).posters[j].Failed?
    decreases |es|
  {
    if es != [] {
      OthersLeavePoster(Twice, s, es[0], j);
      FailedStays(Apply(Twice, s, es[0]), es[1..], j);
    }
  }

  /** As written, in every schedule: a request that has come to its end has thrown. */
  lemma {:induction false} EveryRequestThrows(s: State, es: seq<Event>, j: nat)
    requires IsRun(Twice, s, es) && j < |s.posters| && (s.posters[j].Requesting? || s.posters[j].Holding?)
    requires forall k :: 0 <= k < |es| ==> !(es[k].Request? && es[k].j == j)
    ensures j < |RunEnd(Twice, s, es).posters|
    ensures var p := RunEnd(Twice, s, es).posters[j]; p.Requesting? || p.Holding? || p.Failed?
    decreases |es|
  {
    if es != [] {
      if es[0].OfWorker() || es[0].j != j { OthersLeavePoster(Twice, s, es[0], j); }
      var s' := Apply(Twice, s, es[0]);
      if s'.posters[j].Failed? { FailedStays(s', es[1..], j); } else { EveryRequestThrows(s', es[1..], j); }
    }
  }

  lemma ChangedIsNotified(s: State, j: nat, t: State) returns (es: seq<Event>)
    requires j < |s.posters| && s.posters[j].HasWritten?
    requires var woken := if NotifyOwed(s.posters[j]) then WakeAll(s.workers) else s.workers;
             t == SetPoster(s, j, Idle).(holder := Nobody, workers := woken)
    ensures IsRun(Once, s, es) && RunEnd(Once, s, es) == t
  {
    if NotifyOwed(s.posters[j]) {
      var mid := SetPoster(s, j, Notifying).(holder := Nobody);
      assert Apply(Once, mid, NotifyAll(j)) == t;
      RunCons(Once, mid, NotifyAll(j), []);
      RunCons(Once, s, PosterUnlock(j), [NotifyAll(j)] + []);
      es := [PosterUnlock(j)] + ([NotifyAll(j)] + []);
    } else {
      assert Apply(Once, s, PosterUnlock(j)) == t;
      RunCons(Once, s, PosterUnlock(j), []);
      es := [PosterUnlock(j)] + [];
    }
  }

  lemma HeldRequest(s: State, j: nat, t: State) returns (es: seq<Event>)
    requires j < |s.posters| && s.posters[j].Holding?
    requires var want := s.posters[j].want;
             t == SetPoster(s, j, Idle).(shared := want, holder := Nobody,
                                         workers := if want != s.shared then WakeAll(s.workers) else s.workers)
    ensures IsRun(Once, s, es) && RunEnd(Once, s, es) == t
  {
    var want := s.posters[j].want;
    var read := SetPoster(s, j, HasRead(want, s.shared));
    var written := SetPoster(s, j, HasWritten(want, s.shared)).(shared := want);
    assert Apply(Once, read, PosterWrite(j)) == written;
    assert t == SetPoster(written, j, Idle).(holder := Nobody, workers := t.workers);
    var rest := ChangedIsNotified(written, j, t);
    RunCons(Once, read, PosterWrite(j), rest);
    RunCons(Once, s, PosterRead(j), [PosterWrite(j)] + rest);
    es := [PosterRead(j)] + ([PosterWrite(j)] + rest);
  }

  /** A request that nobody disturbs, from any state with a free mutex, after an earlier one that threw
      or not: with one acquisition it leaves the state asked for and wakes every waiter exactly if that
      is a change; as written it throws and changes nothing else. */
  lemma UndisturbedRequest(v: Locking, s: State, j: nat, want: ThreadState) returns (es: seq<Event>)
    requires s.holder == Nobody && j < |s.posters| && (s.posters[j].Idle? || s.posters[j].Failed?) && !want.Unknown?
    ensures IsRun(v, s, es)
    ensures RunEnd(v, s, es) ==
              if v.Twice? then SetPoster(s, j, Failed)
              else SetPoster(s, j, Idle).(shared := want,
                                          workers := if want != s.shared then WakeAll(s.workers) else s.workers)
  {
    var asked := SetPoster(s, j, Requesting(want));
    var held := SetPoster(s, j, Holding(want)).(holder := ByPoster(j));
    assert Apply(v, asked, PosterLock(j)) == held;
    var rest: seq<Event>;
    if v.Twice? {
      assert Apply(v, held, PosterRead(j)) == SetPoster(s, j, Failed);
      RunCons(v, held, PosterRead(j), []);
      rest := [PosterRead(j)] + [];
    } else {
      var woken := if want != s.shared then WakeAll(s.workers) else s.workers;
      var t := SetPoster(s, j, Idle).(shared := want, workers := woken);
      assert t == SetPoster(held, j, Idle).(shared := want, holder := Nobody, workers := t.workers);
      rest := HeldRequest(held, j, t);
    }
    RunCons(v, asked, PosterLock(j), rest);
    RunCons(v, s, Request(j, want), [PosterLock(j)] + rest);
    es := [Request(j, want)] + ([PosterLock(j)] + rest);
  }
}
