/** NetworkSessionManager's session table with its dead-session filter, and the SendPacket entry
    point of SimpleNetworkInterfaceImpl in front of it. */
module SessionManager {
  import opened Common
  import opened Sequences
  import opened NetworkSessions
  import opened SessionChannels
  import opened SessionNegotiation

  /** Which thread a call runs on: the signal thread, another one, or no signal thread exists. */
  datatype Place = OnSignalThread | Elsewhere | NoSignalThread

  /** One NotifyOnSessionClose made by the dead-session filter. */
  datatype Report<+R> = Report(id: NetworkId, session: R, error: bv8)

  /** `posted` holds the ids whose records the tasks still queued on the signal thread will clear. */
  datatype Manager<R> = Manager(records: map<NetworkId, Option<R>>, posted: seq<NetworkId>, reports: seq<Report<R>>)

  // ---------------------------------------------------------------- lookups on values

  /** mSessionList[id] inserts an empty record for an unknown id. */
  function Touched<R>(m: Manager<R>, id: NetworkId): Manager<R> {
    if id in m.records then m else m.(records := m.records[id := None])
  }

  function Known<R>(m: Manager<R>): set<NetworkId> {
    set id | id in m.records && m.records[id].Some?
  }

  /** GetCurrentSession when IsDeadSession would answer `verdict` for the session under `id`. */
  function Lookup<R>(m: Manager<R>, id: NetworkId, verdict: Verdict, place: Place): (Manager<R>, Option<R>) {
    var m1 := Touched(m, id);
    var own := m1.records[id];
    if own.None? || verdict.Lives? then (m1, own)
    else
      var m2 := m1.(reports := m1.reports + [Report(id, own.value, verdict.error)]);
      match place
      case OnSignalThread => (m2.(records := m2.records[id := None]), None)
      case Elsewhere => (m2.(posted := m2.posted + [id]), None)
      case NoSignalThread => (m2, None)
  }

  datatype Event = Get(id: NetworkId, verdict: Verdict, place: Place) | Ask(id: NetworkId) | RunPosted

  function OnEvent<R>(m: Manager<R>, e: Event): Manager<R> {
    match e
    case Get(id, verdict, place) => Lookup(m, id, verdict, place).0
    case Ask(id) => Touched(m, id)
    case RunPosted =>
      if m.posted == [] then m
      else m.(posted := m.posted[1..], records := m.records[m.posted[0] := None])
  }

  function RunEvents<R>(m: Manager<R>, es: seq<Event>): Manager<R>
    decreases |es|
  {
    if es == [] then m else RunEvents(OnEvent(m, es[0]), es[1..])
  }

  ghost predicate EachSessionOnce<R>(m: Manager<R>) {
    forall i, j :: i in Known(m) && j in Known(m) && i != j ==> m.records[i] != m.records[j]
  }

  /** No report repeats a session, and a reported session is no longer in the table. */
  ghost predicate ReportedOnce<R>(m: Manager<R>) {
    && (forall a, b :: 0 <= a < b < |m.reports| ==> m.reports[a].session != m.reports[b].session)
    && (forall a, id :: 0 <= a < |m.reports| && id in Known(m) ==> m.records[id] != Some(m.reports[a].session))
  }

  function ReportedIds<R>(reports: seq<Report<R>>): set<NetworkId> {
    set a | 0 <= a < |reports| :: reports[a].id
  }

  predicate OnThread(e: Event) { e.Get? ==> e.place.OnSignalThread? }

  lemma LookupReportsOnce<R>(m: Manager<R>, id: NetworkId, verdict: Verdict)
    requires EachSessionOnce(m) && ReportedOnce(m)
    ensures var m' := Lookup(m, id, verdict, OnSignalThread).0;
            && EachSessionOnce(m') && ReportedOnce(m')
            && m'.posted == m.posted && m.reports <= m'.reports
            && Known(m') == Known(m) - ReportedIds(m'.reports[|m.reports|..])
  {
    var m' := Lookup(m, id, verdict, OnSignalThread).0;
    if id in Known(m) && verdict.Dies? {
      var r := Report(id, m.records[id].value, verdict.error);
      assert m'.reports[|m.reports|..] == [r];
      assert ReportedIds([r]) == {id} by { assert [r][0].id == id; }
      assert Known(m') == Known(m) - {id};
    } else {
      assert m'.reports[|m.reports|..] == [];
      assert Known(m') == Known(m);
    }
  }

  lemma ReportedIdsConcat<R>(a: seq<Report<R>>, b: seq<Report<R>>)
    ensures ReportedIds(a + b) == ReportedIds(a) + ReportedIds(b)
  {
    forall id | id in ReportedIds(a) + ReportedIds(b) ensures id in ReportedIds(a + b) {
      if id in ReportedIds(a) {
        var k :| 0 <= k < |a| && a[k].id == id;
        assert (a + b)[k].id == id;
      } else {
        var k :| 0 <= k < |b| && b[k].id == id;
        assert (a + b)[|a| + k].id == id;
      }
    }
  }

  /** On the signal thread, over any lookups and whatever the sessions' verdicts turn out to be:
      each session is reported closed at most once, and the known connections are the original ones
      minus exactly those reported, however many empty records lookups have inserted. */
  lemma {:induction false} SignalThreadReportsOnce<R>(m: Manager<R>, es: seq<Event>)
    requires EachSessionOnce(m) && ReportedOnce(m) && m.posted == []
    requires forall k :: 0 <= k < |es| ==> OnThread(es[k])
    ensures var m' := RunEvents(m, es);
            && ReportedOnce(m') && m.reports <= m'.reports
            && Known(m') == Known(m) - ReportedIds(m'.reports[|m.reports|..])
    decreases |es|
  {
    if es == [] {
      assert m.reports[|m.reports|..] == [];
    } else {
      var m1 := OnEvent(m, es[0]);
      if es[0].Get? {
        LookupReportsOnce(m, es[0].id, es[0].verdict);
      } else {
        assert Known(m1) == Known(m);
        assert m1.reports[|m.reports|..] == [];
      }
      SignalThreadReportsOnce(m1, es[1..]);
      var m' := RunEvents(m, es);
      ReportedIdsConcat(m1.reports[|m.reports|..], m'.reports[|m1.reports|..]);
      assert m'.reports[|m.reports|..] == m1.reports[|m.reports|..] + m'.reports[|m1.reports|..];
    }
  }

  ghost predicate DistinctReports<R>(reports: seq<Report<R>>) {
    forall a, b :: 0 <= a < b < |reports| ==> reports[a].session != reports[b].session
  }

  // ---------------------------------------------------------------- any threads, from the events alone

  /** The known ids; those of them already reported; and the ids whose clearing is posted. */
  datatype Book = Book(known: set<NetworkId>, exposed: set<NetworkId>, queue: seq<NetworkId>)

  predicate Closes(b: Book, e: Event) { e.Get? && e.verdict.Dies? && e.id in b.known }

  function Booked(b: Book, e: Event): Book {
    match e
    case Ask(_) => b
    case RunPosted =>
      if b.queue == [] then b else Book(b.known - {b.queue[0]}, b.exposed - {b.queue[0]}, b.queue[1..])
    case Get(id, _, place) =>
      if !Closes(b, e) then b
      else
        match place
        case OnSignalThread => Book(b.known - {id}, b.exposed - {id}, b.queue)
        case Elsewhere => Book(b.known, b.exposed + {id}, b.queue + [id])
        case NoSignalThread => Book(b.known, b.exposed + {id}, b.queue)
  }

  function RunBook(b: Book, es: seq<Event>): Book
    decreases |es|
  {
    if es == [] then b else RunBook(Booked(b, es[0]), es[1..])
  }

  /** The reports the events make, `who` being the sessions. */
  function Closings<R>(who: map<NetworkId, Option<R>>, b: Book, es: seq<Event>): seq<Report<R>>
    requires forall id :: id in b.known ==> id in who && who[id].Some?
    decreases |es|
  {
    if es == [] then []
    else
      (if Closes(b, es[0]) then [Report(es[0].id, who[es[0].id].value, es[0].verdict.error)] else [])
      + Closings(who, Booked(b, es[0]), es[1..])
  }

  function Mentioned(es: seq<Event>): set<NetworkId> {
    set k | 0 <= k < |es| && !es[k].RunPosted? :: es[k].id
  }

  /** No dead lookup is of an id that an earlier one left exposed. */
  predicate NeverRepeats(b: Book, es: seq<Event>)
    decreases |es|
  {
    es == [] || (!(Closes(b, es[0]) && es[0].id in b.exposed) && NeverRepeats(Booked(b, es[0]), es[1..]))
  }

  ghost predicate Reported<R>(m: Manager<R>, id: NetworkId)
    requires id in Known(m)
  {
    exists a :: 0 <= a < |m.reports| && m.reports[a].session == m.records[id].value
  }

  ghost predicate Tracks<R>(m: Manager<R>, b: Book) {
    && EachSessionOnce(m) && b.known == Known(m) && b.queue == m.posted && b.exposed <= b.known
    && (forall id :: id in b.known ==> (id in b.exposed <==> Reported(m, id)))
    && (forall k :: 0 <= k < |m.posted| ==> m.posted[k] in m.records)
  }

  /** Before any report, with nothing posted, no id is exposed. */
  lemma FreshBook<R>(m: Manager<R>)
    requires EachSessionOnce(m) && m.posted == [] && m.reports == []
    ensures Tracks(m, Book(Known(m), {}, []))
  {
  }

  lemma LookupTracks<R>(m: Manager<R>, b: Book, e: Event)
    requires Tracks(m, b) && Closes(b, e)
    ensures Tracks(OnEvent(m, e), Booked(b, e))
  {
    var m' := OnEvent(m, e);
    assert Known(m') == if e.place.OnSignalThread? then Known(m) - {e.id} else Known(m);
    assert m'.reports[|m.reports|].session == m.records[e.id].value;
    forall id | id in Known(m') ensures id in Booked(b, e).exposed <==> Reported(m', id) {
      assert id != e.id ==> m.records[id] != m.records[e.id];
      if Reported(m, id) {
        var a :| 0 <= a < |m.reports| && m.reports[a].session == m.records[id].value;
        assert m'.reports[a] == m.reports[a];
      }
    }
  }

  lemma QuietTracks<R>(m: Manager<R>, b: Book, e: Event)
    requires Tracks(m, b) && !Closes(b, e)
    ensures Tracks(OnEvent(m, e), Booked(b, e)) && OnEvent(m, e).reports == m.reports
  {
    var m' := OnEvent(m, e);
    assert Known(m') == Booked(b, e).known;
    assert forall id :: id in Known(m') ==> m'.records[id] == m.records[id] && (Reported(m', id) <==> Reported(m, id));
  }

  /** One event keeps the book, and repeats a report exactly if it closes an exposed id. */
  lemma StepTracks<R>(m: Manager<R>, b: Book, e: Event)
    requires Tracks(m, b)
    ensures Tracks(OnEvent(m, e), Booked(b, e))
    ensures OnEvent(m, e).reports ==
              m.reports + if Closes(b, e) then [Report(e.id, m.records[e.id].value, e.verdict.error)] else []
    ensures DistinctReports(m.reports) ==>
              (DistinctReports(OnEvent(m, e).reports) <==> !(Closes(b, e) && e.id in b.exposed))
  {
    var m' := OnEvent(m, e);
    if Closes(b, e) {
      LookupTracks(m, b, e);
      if e.id in b.exposed {
        var a :| 0 <= a < |m.reports| && m.reports[a].session == m.records[e.id].value;
        assert m'.reports[a].session == m'.reports[|m.reports|].session;
      }
    } else {
      QuietTracks(m, b, e);
    }
  }

  lemma StepRecords<R>(m: Manager<R>, b: Book, e: Event)
    requires Tracks(m, b)
    ensures OnEvent(m, e).records.Keys == m.records.Keys + if e.RunPosted? then {} else {e.id}
    ensures forall id :: id in Known(OnEvent(m, e)) ==> id in Known(m) && OnEvent(m, e).records[id] == m.records[id]
  {
  }

  lemma {:induction false} SameSessions<R>(who: map<NetworkId, Option<R>>, who': map<NetworkId, Option<R>>,
                                               b: Book, es: seq<Event>)
    requires forall id :: id in b.known ==> id in who && who[id].Some? && id in who' && who'[id] == who[id]
    ensures Closings(who, b, es) == Closings(who', b, es)
    decreases |es|
  {
    if es != [] { SameSessions(who, who', Booked(b, es[0]), es[1..]); }
  }

  lemma MentionedFirst(es: seq<Event>)
    requires es != []
    ensures Mentioned(es) == (if es[0].RunPosted? then {} else {es[0].id}) + Mentioned(es[1..])
  {
    var rest := es[1..];
    assert forall k :: 0 <= k < |rest| ==> rest[k] == es[k + 1];
    forall id | id in Mentioned(es)
      ensures id in (if es[0].RunPosted? then {} else {es[0].id}) + Mentioned(rest)
    {
      var k :| 0 <= k < |es| && !es[k].RunPosted? && es[k].id == id;
      if k > 0 { assert rest[k - 1].id == id; }
    }
    forall id | id in Mentioned(rest) ensures id in Mentioned(es) {
      var k :| 0 <= k < |rest| && !rest[k].RunPosted? && rest[k].id == id;
      assert es[k + 1].id == id;
    }
  }

  lemma {:induction false} KnownFollows<R>(m: Manager<R>, b: Book, es: seq<Event>)
    requires Tracks(m, b)
    ensures var m', b' := RunEvents(m, es), RunBook(b, es);
            && Known(m') == b'.known && m'.posted == b'.queue && b'.known <= b.known
            && forall id :: id in b'.known ==> m'.records[id] == m.records[id]
    decreases |es|
  {
    if es != [] {
      StepTracks(m, b, es[0]);
      StepRecords(m, b, es[0]);
      KnownFollows(OnEvent(m, es[0]), Booked(b, es[0]), es[1..]);
    }
  }

  lemma {:induction false} KeysFollow<R>(m: Manager<R>, b: Book, es: seq<Event>)
    requires Tracks(m, b)
    ensures RunEvents(m, es).records.Keys == m.records.Keys + Mentioned(es)
    decreases |es|
  {
    if es != [] {
      StepTracks(m, b, es[0]);
      StepRecords(m, b, es[0]);
      KeysFollow(OnEvent(m, es[0]), Booked(b, es[0]), es[1..]);
      MentionedFirst(es);
    }
  }

  lemma {:induction false} ReportsFollow<R>(m: Manager<R>, b: Book, es: seq<Event>)
    requires Tracks(m, b)
    ensures RunEvents(m, es).reports == m.reports + Closings(m.records, b, es)
    decreases |es|
  {
    if es == [] {
      Nothing(m.reports);
    } else {
      var m1, b1, rest := OnEvent(m, es[0]), Booked(b, es[0]), es[1..];
      var first := if Closes(b, es[0]) then [Report(es[0].id, m.records[es[0].id].value, es[0].verdict.error)] else [];
      StepTracks(m, b, es[0]);
      StepRecords(m, b, es[0]);
      ReportsFollow(m1, b1, rest);
      SameSessions(m1.records, m.records, b1, rest);
      Associative(m.reports, first, Closings(m.records, b1, rest));
    }
  }

  /** Over any events on any threads: the known connections, the posted clearings, every report with
      its session and error, and the ids in the table are those the events dictate, and a session that
      stays is the one it was. */
  lemma ManagerFollowsEvents<R>(m: Manager<R>, b: Book, es: seq<Event>)
    requires Tracks(m, b)
    ensures var m', b' := RunEvents(m, es), RunBook(b, es);
            && Known(m') == b'.known && m'.posted == b'.queue && b'.known <= b.known
            && (forall id :: id in b'.known ==> m'.records[id] == m.records[id])
            && m'.reports == m.reports + Closings(m.records, b, es)
            && m'.records.Keys == m.records.Keys + Mentioned(es)
  {
    KnownFollows(m, b, es);
    ReportsFollow(m, b, es);
    KeysFollow(m, b, es);
  }

  /** Over any such run a session is reported twice exactly if some dead lookup is of an id that an
      earlier dead lookup off the signal thread left exposed, its posted clear not having run. */
  lemma {:induction false} ReportedTwiceExactly<R>(m: Manager<R>, b: Book, es: seq<Event>)
    requires Tracks(m, b) && DistinctReports(m.reports)
    ensures DistinctReports(RunEvents(m, es).reports) <==> NeverRepeats(b, es)
    decreases |es|
  {
    if es != [] {
      var m', b' := OnEvent(m, es[0]), Booked(b, es[0]);
      StepTracks(m, b, es[0]);
      ReportsFollow(m', b', es[1..]);
      if DistinctReports(m'.reports) {
        ReportedTwiceExactly(m', b', es[1..]);
      } else {
        assert m'.reports <= RunEvents(m, es).reports;
      }
    }
  }

  // ---------------------------------------------------------------- packet sizes

  const MAX_UNRELIABLE := 1196
  const MAX_RELIABLE := 15360

  predicate Admitted(kind: Kind, size: nat) {
    size <= if kind.Unreliable? then MAX_UNRELIABLE else MAX_RELIABLE
  }

  ghost predicate WithinLimits(t: Transport) {
    && (forall i :: 0 <= i < |t.reliableQueue| ==> Admitted(Reliable, |t.reliableQueue[i]|))
    && (forall i :: 0 <= i < |t.unreliableQueue| ==> Admitted(Unreliable, |t.unreliableQueue[i]|))
    && (forall i :: 0 <= i < |t.log| ==> Admitted(t.log[i].kind, |t.log[i].packet|))
  }

  lemma SendWithinLimits(t: Transport, kind: Kind, p: Packet)
    requires WithinLimits(t) && Admitted(kind, |p|)
    ensures WithinLimits(OnSend(t, kind, p))
  {
  }

  lemma FlushWithinLimits(v: Routing, t: Transport)
    requires WithinLimits(t)
    ensures WithinLimits(Flush(v, t))
  {
    TaggedAt(Reliable, Reliable, t.reliableQueue);
    assert WithinLimits(FlushReliable(t));
    TaggedAt(if v.AsIntended? then Unreliable else Reliable, Unreliable, t.unreliableQueue);
  }

  ghost predicate AllAdmitted(tasks: seq<Task>) {
    forall k :: 0 <= k < |tasks| && tasks[k].Send? ==> Admitted(tasks[k].kind, |tasks[k].packet|)
  }

  /** If only admitted packets are submitted, no queue and no channel ever sees a larger one. */
  lemma {:induction false} LimitsHoldInAnyRun(v: Routing, t: Transport, tasks: seq<Task>)
    requires WithinLimits(t) && AllAdmitted(tasks)
    ensures WithinLimits(RunTasks(v, t, tasks))
    decreases |tasks|
  {
    if tasks != [] {
      if tasks[0].Send? {
        SendWithinLimits(t, tasks[0].kind, tasks[0].packet);
      } else if tasks[0].Refreshes() {
        FlushWithinLimits(v, Refreshed(t, tasks[0]));
      }
      LimitsHoldInAnyRun(v, OnTask(v, t, tasks[0]), tasks[1..]);
    }
  }

  // ---------------------------------------------------------------- the classes

  class NetworkSessionManager {
    var sessionList: map<NetworkId, Option<NetworkSession>>
    var posted: seq<NetworkId>
    ghost var reports: seq<Report<NetworkSession>>
    const liveness: Liveness
    const negotiationTimeout: int

    ghost function View(): Manager<NetworkSession>
      reads this
    {
      Manager(sessionList, posted, reports)
    }

    ghost function Sessions(): set<NetworkSession>
      reads this
    {
      set id | id in sessionList && sessionList[id].Some? :: sessionList[id].value
    }

    /** IsDeadSession of the session under `id` at this clock reading. */
    ghost function VerdictOn(id: NetworkId, now: Time): Verdict
      reads this, Sessions()
    {
      if id in sessionList && sessionList[id].Some?
      then Judge(liveness, sessionList[id].value.Negotiating(), negotiationTimeout, now) else Lives
    }

    constructor (liveness: Liveness, timeout: int)
      ensures View() == Manager(map[], [], []) && this.liveness == liveness && negotiationTimeout == timeout
    {
      sessionList, posted, reports, this.liveness, negotiationTimeout := map[], [], [], liveness, timeout;
    }

    /** True exactly for a recorded session that is dead at this clock reading.  It is reported with
        its error; its record is cleared at once on the signal thread, by a posted task elsewhere. */
    method FilterDeadSession(id: NetworkId, now: Time, place: Place) returns (dead: bool)
      requires id in sessionList
      modifies this
      ensures View() == Lookup(old(View()), id, old(VerdictOn(id, now)), place).0
      ensures dead <==> old(VerdictOn(id, now).Dies?)
      ensures reports ==
                if dead then old(reports + [Report(id, sessionList[id].value, VerdictOn(id, now).error)])
                else old(reports)
      ensures sessionList == if dead && place.OnSignalThread? then old(sessionList)[id := None] else old(sessionList)
      ensures posted == if dead && place.Elsewhere? then old(posted) + [id] else old(posted)
    {
      var own := sessionList[id];
      if own == None {
        return false;
      }
      var verdict := own.value.IsDeadSession(liveness, negotiationTimeout, now);
      if verdict.Lives? {
        return false;
      }
      reports := reports + [Report(id, own.value, verdict.error)];
      if place == OnSignalThread {
        sessionList := sessionList[id := None];
      } else if place == Elsewhere {
        posted := posted + [id];
      }
      return true;
    }

    /** The session under the id unless it is dead at this clock reading, in which case it is
        reported; every session still listed is listed where it was. */
    method GetCurrentSession(id: NetworkId, now: Time, place: Place) returns (session: Option<NetworkSession>)
      modifies this
      ensures (View(), session) == Lookup(old(View()), id, old(VerdictOn(id, now)), place)
      ensures session.Some? <==> old(id in Known(View()) && VerdictOn(id, now).Lives?)
      ensures session.Some? ==> old(sessionList)[id] == session && session.value in old(Sessions())
                                && Judge(liveness, session.value.Negotiating(), negotiationTimeout, now) == Lives
      ensures forall k :: k in Known(View()) ==> k in Known(old(View())) && sessionList[k] == old(sessionList)[k]
      ensures forall k :: k in Known(old(View())) && k !in Known(View()) ==>
                            k == id && place.OnSignalThread? && old(VerdictOn(id, now).Dies?)
    {
      if id !in sessionList {
        sessionList := sessionList[id := None];
      }
      var dead := FilterDeadSession(id, now, place);
      session := if dead then None else sessionList[id];
    }

    /** Also true of a dead session that no lookup has filtered yet. */
    method HasKnownConnection(id: NetworkId) returns (known: bool)
      modifies this`sessionList
      ensures View() == Touched(old(View()), id)
      ensures known <==> id in Known(old(View()))
    {
      if id !in sessionList {
        sessionList := sessionList[id := None];
      }
      known := sessionList[id] != None;
    }

    /** Posts the packet to the one live session under the id, if there is one, and to no other. */
    method SendPacket(id: NetworkId, packet: Packet, kind: Kind, now: Time, place: Place) returns (sent: bool)
      modifies this, Sessions()
      ensures View() == Lookup(old(View()), id, old(VerdictOn(id, now)), place).0
      ensures sent <==> old(id in Known(View()) && VerdictOn(id, now).Lives?)
      ensures forall s :: s in old(Sessions()) ==>
                && s.Channels() == old(s.Channels()) && s.Negotiating() == old(s.Negotiating())
                && s.pending == if sent && !place.NoSignalThread? && old(sessionList)[id] == Some(s)
                                then old(s.pending) + [Send(kind, packet)] else old(s.pending)
    {
      var current := GetCurrentSession(id, now, place);
      if current.Some? {
        current.value.SendPacket(kind, packet, now, place != NoSignalThread);
      }
      sent := current.Some?;
    }
  }

  class SimpleNetworkInterface {
    const receiverId: NetworkId
    const sessionManager: NetworkSessionManager

    constructor (receiverId: NetworkId, liveness: Liveness, timeout: int)
      ensures this.receiverId == receiverId && fresh(sessionManager)
      ensures sessionManager.View() == Manager(map[], [], [])
    {
      this.receiverId := receiverId;
      this.sessionManager := new NetworkSessionManager(liveness, timeout);
    }

    /** `onLan` and `signedIn` are what the LAN table and the signaling service answer.  Returns
        whether the packet was taken: looped back, or submitted to a live session. */
    method SendPacket(remoteId: NetworkId, packet: Packet, kind: Kind,
                      onLan: bool, signedIn: bool, now: Time, place: Place)
      returns (taken: bool)
      modifies sessionManager, sessionManager.Sessions()
      ensures !Admitted(kind, |packet|) || remoteId == receiverId ==>
                sessionManager.View() == old(sessionManager.View())
                && (taken <==> Admitted(kind, |packet|))
      ensures Admitted(kind, |packet|) && remoteId != receiverId ==>
                (taken <==> old(remoteId in Known(sessionManager.View())
                                && sessionManager.VerdictOn(remoteId, now).Lives?))
                && sessionManager.View() ==
                   if old(remoteId in Known(sessionManager.View())) || onLan || signedIn
                   then Lookup(old(sessionManager.View()),
                               remoteId, old(sessionManager.VerdictOn(remoteId, now)), place).0
                   else Touched(old(sessionManager.View()), remoteId)
      ensures forall s :: s in old(sessionManager.Sessions()) ==>
                && s.Channels() == old(s.Channels())
                && s.pending == (if taken && remoteId != receiverId && !place.NoSignalThread?
                                    && remoteId in old(sessionManager.sessionList)
                                    && old(sessionManager.sessionList)[remoteId] == Some(s)
                                 then old(s.pending) + [Send(kind, packet)] else old(s.pending))
                && (old(AllAdmitted(s.pending)) ==> AllAdmitted(s.pending))
    {
      if |packet| >= 1197 && kind == Unreliable {
        return false;
      }
      if |packet| >= 15361 && kind == Reliable {
        return false;
      }
      if receiverId == remoteId {
        return true;
      }
      var known := sessionManager.HasKnownConnection(remoteId);
      if known || onLan || signedIn {
        taken := sessionManager.SendPacket(remoteId, packet, kind, now, place);
        return;
      }
      return false;
    }
  }
}
