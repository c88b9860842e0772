/** The negotiation side of NetworkSession: its phases, its timeout, and when a session is dead. */
module SessionNegotiation {
  import opened Common

  /** `Unset` is ENegotiationState::None. */
  datatype Phase = Unset | WaitingForResponse | WaitingForAccept | ICEProcessing

  /** Which field says that the connection has failed: the code asks mConnectionStat, which nothing
      ever writes; the reported ICE states go to mIceConnectionState. */
  datatype Liveness = AsksStat | AsksIce

  /** `stat` is mConnectionStat, `ice` is mIceConnectionState, `timer` the last negotiation time. */
  datatype Negotiation = Negotiation(phase: Phase, timer: Time, outgoing: bool, stat: bv32, ice: bv32)

  datatype Signal = Accept | Response(now: Time) | IceReport(state: bv32)

  const ERROR_CREATE_PEER: bv8 := 4
  const ERROR_ICE: bv8 := 5
  const ERROR_TIMEOUT_RESPONSE: bv8 := 14
  const ERROR_TIMEOUT_ACCEPT: bv8 := 15

  /** A session after its initialisation; `before` holds what its fields were. */
  function Initialised(outgoing: bool, now: Time, before: Negotiation): Negotiation {
    Negotiation(if outgoing then WaitingForResponse else WaitingForAccept, now, outgoing, before.stat, before.ice)
  }

  function OnSignal(n: Negotiation, e: Signal): Negotiation {
    match e
    case Accept => if n.phase.WaitingForAccept? then n.(phase := ICEProcessing) else n
    case Response(now) => n.(phase := ICEProcessing, timer := now)
    case IceReport(state) => n.(ice := state)
  }

  function RunSignals(n: Negotiation, es: seq<Signal>): Negotiation
    decreases |es|
  {
    if es == [] then n else RunSignals(OnSignal(n, es[0]), es[1..])
  }

  /** The mask test of IsConnectionAlive, negated. */
  predicate Failed(state: bv32) { ((state - 4) & 0xFFFF_FFFD) == 0 }

  predicate ConnectionFailed(v: Liveness, n: Negotiation) { Failed(if v.AsksStat? then n.stat else n.ice) }

  function TimeoutError(phase: Phase): bv8 { (if phase.WaitingForResponse? then 1 else 0) ^ 0xF }

  predicate TimedOut(timer: Time, timeoutSeconds: int, now: Time) {
    timeoutSeconds * 1000 < WholeUnits(now - timer, MILLISECOND)
  }

  datatype Verdict = Lives | Dies(error: bv8)

  /** IsDeadSession; the error is the one passed to NotifyOnSessionClose. */
  function Judge(v: Liveness, n: Negotiation, timeoutSeconds: int, now: Time): Verdict {
    if ConnectionFailed(v, n) then Dies(ERROR_ICE)
    else if n.phase.ICEProcessing? || !TimedOut(n.timer, timeoutSeconds, now) then Lives
    else Dies(TimeoutError(n.phase))
  }

  /** Over all 32-bit values the mask test picks out exactly kIceConnectionFailed and
      kIceConnectionClosed. */
  lemma MaskTest(state: bv32)
    ensures Failed(state) <==> state == 4 || state == 6
  {
  }

  lemma TimeoutErrors()
    ensures TimeoutError(WaitingForResponse) == ERROR_TIMEOUT_RESPONSE
    ensures TimeoutError(WaitingForAccept) == ERROR_TIMEOUT_ACCEPT
  {
    assert 1 as bv8 ^ 0xF == 14 && 0 as bv8 ^ 0xF == 15;
  }

  lemma TimedOutMeans(timer: Time, timeoutSeconds: int, now: Time)
    requires timer <= now
    ensures TimedOut(timer, timeoutSeconds, now) <==> now - timer >= (timeoutSeconds * 1000 + 1) * MILLISECOND
  {
  }

  // ---------------------------------------------------------------- phases

  ghost predicate InOwnPhase(n: Negotiation) {
    n.phase.ICEProcessing? || n.phase == if n.outgoing then WaitingForResponse else WaitingForAccept
  }

  /** From initialisation on, a session is in its own waiting phase or in ICEProcessing, never
      leaves ICEProcessing, and keeps its direction; nothing ever writes `stat`. */
  lemma {:induction false} PhasesOnlyAdvance(n: Negotiation, es: seq<Signal>)
    requires InOwnPhase(n)
    ensures var n' := RunSignals(n, es);
            && InOwnPhase(n') && n'.outgoing == n.outgoing && n'.stat == n.stat
            && (n.phase.ICEProcessing? ==> n'.phase.ICEProcessing?)
            && (!n'.phase.ICEProcessing? ==> n'.timer == n.timer)
    decreases |es|
  {
    if es != [] { PhasesOnlyAdvance(OnSignal(n, es[0]), es[1..]); }
  }

  predicate Answers(outgoing: bool, e: Signal) { e.Response? || (e.Accept? && !outgoing) }

  /** Whether a run of signals answers the negotiation: any session takes a response, only an
      incoming one can be accepted. */
  ghost predicate Answered(outgoing: bool, es: seq<Signal>) {
    exists k :: 0 <= k < |es| && Answers(outgoing, es[k])
  }

  function LastReport(ice: bv32, es: seq<Signal>): bv32 {
    if es == [] then ice
    else if es[|es| - 1].IceReport? then es[|es| - 1].state
    else LastReport(ice, es[..|es| - 1])
  }

  /** When the timer was started: at the last response, or before the run. */
  function LastResponse(timer: Time, es: seq<Signal>): Time {
    if es == [] then timer
    else if es[|es| - 1].Response? then es[|es| - 1].now
    else LastResponse(timer, es[..|es| - 1])
  }

  lemma AnsweredPush(outgoing: bool, es: seq<Signal>, e: Signal)
    ensures Answered(outgoing, es + [e]) <==> Answered(outgoing, es) || Answers(outgoing, e)
  {
    if Answered(outgoing, es) {
      var k :| 0 <= k < |es| && Answers(outgoing, es[k]);
      assert (es + [e])[k] == es[k];
    }
    assert (es + [e])[|es|] == e;
  }

  lemma {:induction false} RunSignalsPush(n: Negotiation, es: seq<Signal>, e: Signal)
    ensures RunSignals(n, es + [e]) == OnSignal(RunSignals(n, es), e)
    decreases |es|
  {
    if es == [] {
      assert ([] + [e])[1..] == [];
    } else {
      RunSignalsPush(OnSignal(n, es[0]), es[1..], e);
      assert (es + [e])[1..] == es[1..] + [e];
    }
  }

  /** The negotiation is over exactly if some signal of the run answered it, the timer runs from the
      last response, and the ICE state is the last one reported. */
  lemma {:induction false} AdvancesExactly(n0: Negotiation, es: seq<Signal>)
    requires InOwnPhase(n0) && !n0.phase.ICEProcessing?
    ensures var n := RunSignals(n0, es);
            && (n.phase.ICEProcessing? <==> Answered(n0.outgoing, es))
            && n.timer == LastResponse(n0.timer, es) && n.ice == LastReport(n0.ice, es)
    decreases |es|
  {
    if es != [] {
      var es', e := es[..|es| - 1], es[|es| - 1];
      assert es == es' + [e];
      AdvancesExactly(n0, es');
      PhasesOnlyAdvance(n0, es');
      RunSignalsPush(n0, es', e);
      AnsweredPush(n0.outgoing, es', e);
    }
  }

  // ---------------------------------------------------------------- death

  /** The connection state a run leaves behind: as written the one there was before it. */
  function FinalState(v: Liveness, before: Negotiation, es: seq<Signal>): bv32 {
    if v.AsksStat? then before.stat else LastReport(before.ice, es)
  }

  /** After any run from initialisation: dead exactly if the connection state asked is 4 or 6 (an
      ICE error) or, the negotiation not answered, one whole millisecond past the timeout counted
      from initialisation (reported as 14 for outgoing and 15 for incoming sessions). */
  lemma DeathIsExact(v: Liveness, outgoing: bool, start: Time, before: Negotiation, es: seq<Signal>,
                     timeoutSeconds: int, now: Time)
    requires start <= now
    ensures Judge(v, RunSignals(Initialised(outgoing, start, before), es), timeoutSeconds, now) ==
              var state := FinalState(v, before, es);
              if state == 4 || state == 6 then Dies(ERROR_ICE)
              else if !Answered(outgoing, es) && now - start >= (timeoutSeconds * 1000 + 1) * MILLISECOND then
                Dies(if outgoing then ERROR_TIMEOUT_RESPONSE else ERROR_TIMEOUT_ACCEPT)
              else Lives
  {
    PhasesOnlyAdvance(Initialised(outgoing, start, before), es);
    AdvancesExactly(Initialised(outgoing, start, before), es);
    MaskTest(FinalState(v, before, es));
    TimedOutMeans(start, timeoutSeconds, now);
    TimeoutErrors();
  }

  /** As written and as intended agree on a session exactly when the connection state it started
      with and the last one reported are both failures or both not. */
  lemma WrittenAgreesExactly(outgoing: bool, start: Time, before: Negotiation, es: seq<Signal>,
                             timeoutSeconds: int, now: Time)
    requires start <= now
    ensures var n := RunSignals(Initialised(outgoing, start, before), es);
            Judge(AsksStat, n, timeoutSeconds, now) == Judge(AsksIce, n, timeoutSeconds, now) <==>
              (before.stat in {4, 6} <==> LastReport(before.ice, es) in {4, 6})
  {
    DeathIsExact(AsksStat, outgoing, start, before, es, timeoutSeconds, now);
    DeathIsExact(AsksIce, outgoing, start, before, es, timeoutSeconds, now);
  }

  /** The run without its ICE reports. */
  function Unreported(es: seq<Signal>): seq<Signal> {
    if es == [] then [] else (if es[0].IceReport? then [] else [es[0]]) + Unreported(es[1..])
  }

  lemma SignalsIgnoreIce(n: Negotiation, ice: bv32, e: Signal)
    ensures if e.IceReport? then OnSignal(n, e).(ice := ice) == n.(ice := ice)
            else OnSignal(n.(ice := ice), e) == OnSignal(n, e).(ice := ice)
  {
  }

  lemma {:induction false} ReportsOnlyTouchIce(n: Negotiation, ice: bv32, es: seq<Signal>)
    ensures RunSignals(n.(ice := ice), Unreported(es)) == RunSignals(n, es).(ice := ice)
    decreases |es|
  {
    if es != [] {
      var rest := Unreported(es[1..]);
      SignalsIgnoreIce(n, ice, es[0]);
      ReportsOnlyTouchIce(OnSignal(n, es[0]), ice, es[1..]);
      if es[0].IceReport? {
        assert Unreported(es) == rest;
      } else {
        assert Unreported(es)[0] == es[0] && Unreported(es)[1..] == rest;
      }
    }
  }

  /** As written, reported ICE states never change the verdict on a session, whatever they are. */
  lemma ReportsNeverMatter(n: Negotiation, es: seq<Signal>, timeoutSeconds: int, now: Time)
    ensures Judge(AsksStat, RunSignals(n, es), timeoutSeconds, now) ==
            Judge(AsksStat, RunSignals(n, Unreported(es)), timeoutSeconds, now)
  {
    ReportsOnlyTouchIce(n, n.ice, es);
    assert n.(ice := n.ice) == n;
  }

  /** As written, an answered session that did not start out failed never dies. */
  lemma AnsweredNeverDies(outgoing: bool, start: Time, before: Negotiation, es: seq<Signal>,
                          timeoutSeconds: int, now: Time)
    requires start <= now && before.stat != 4 && before.stat != 6 && Answered(outgoing, es)
    ensures Judge(AsksStat, RunSignals(Initialised(outgoing, start, before), es), timeoutSeconds, now) == Lives
  {
    DeathIsExact(AsksStat, outgoing, start, before, es, timeoutSeconds, now);
  }

  /** A session that was answered and then told that ICE has failed: it lives as written and is dead
      as intended. */
  lemma IceFailureIsIgnored(outgoing: bool, start: Time, before: Negotiation, timeoutSeconds: int, now: Time)
    requires start <= now && before.stat != 4 && before.stat != 6
    ensures var n := RunSignals(Initialised(outgoing, start, before), [Response(start), IceReport(4)]);
            && Judge(AsksStat, n, timeoutSeconds, now) == Lives
            && Judge(AsksIce, n, timeoutSeconds, now) == Dies(ERROR_ICE)
  {
    var es := [Response(start), IceReport(4)];
    assert Answers(outgoing, es[0]);
    DeathIsExact(AsksStat, outgoing, start, before, es, timeoutSeconds, now);
    DeathIsExact(AsksIce, outgoing, start, before, es, timeoutSeconds, now);
  }
}
