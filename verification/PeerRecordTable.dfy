/** PeerRecordTable: LAN peers, forgotten 60 whole seconds after they were last heard of.  The code
    sweeps one table and reads another; the intended table sweeps the one it reads. */
module PeerRecordTables {
  import opened Common
  import opened Sequences

  type Address = string
  datatype Record = Record(lastActive: Time, address: Address)
  type Table = map<NetworkId, Record>

  /** `Swept` clears the table that is read (intended), `Unswept` another one (the code). */
  datatype Sweep = Swept | Unswept

  predicate Fresh(r: Record, now: Time) { WholeUnits(now - r.lastActive, SECOND) <= 60 }

  /** The clock is read anew for each record swept: `at(id)` is the reading for `id`. */
  function FreshOnly(t: Table, at: NetworkId -> Time): Table { map id | id in t && Fresh(t[id], at(id)) :: t[id] }

  /** A call sweeps with the readings `at` and ends at `now`. */
  datatype Op =
    | Find(id: NetworkId, at: NetworkId -> Time, now: Time)
    | AddOrUpdate(id: NetworkId, address: Address, at: NetworkId -> Time, now: Time)

  /** `Found` is what Find and Contains answer, `Added(isNew)` what AddOrUpdate answers. */
  datatype Outcome = Found(address: Option<Address>) | Added(isNew: bool)

  // ---------------------------------------------------------------- the table

  function OnTable(v: Sweep, t: Table, op: Op): (Table, Outcome) {
    var t' := if v.Swept? then FreshOnly(t, op.at) else t;
    match op
    case Find(id, _, _) => (t', Found(if id in t' then Some(t'[id].address) else None))
    case AddOrUpdate(id, address, _, now) => (t'[id := Record(now, address)], Added(id !in t'))
  }

  function RunTable(v: Sweep, t: Table, ops: seq<Op>): seq<Outcome>
    decreases |ops|
  {
    if ops == [] then [] else [OnTable(v, t, ops[0]).1] + RunTable(v, OnTable(v, t, ops[0]).0, ops[1..])
  }

  // ---------------------------------------------------------------- the log

  /** The last AddOrUpdate for `id`, if any. */
  function Latest(log: seq<Op>, id: NetworkId): Option<Record> {
    if log == [] then None
    else
      var op := log[|log| - 1];
      if op.AddOrUpdate? && op.id == id then Some(Record(op.now, op.address)) else Latest(log[..|log| - 1], id)
  }

  /** Known means last heard of at most 60 whole seconds ago. */
  function Meaning(log: seq<Op>, op: Op): Outcome {
    var heard := Latest(log, op.id);
    var known := heard.Some? && Fresh(heard.value, op.at(op.id));
    match op
    case Find(_, _, _) => Found(if known then Some(heard.value.address) else None)
    case AddOrUpdate(_, _, _, _) => Added(!known)
  }

  function RunLog(log: seq<Op>, ops: seq<Op>): seq<Outcome>
    decreases |ops|
  {
    if ops == [] then [] else [Meaning(log, ops[0])] + RunLog(log + [ops[0]], ops[1..])
  }

  /** All readings of a call lie between the end of the call before and its own end. */
  ghost predicate ClockRuns(clock: Time, ops: seq<Op>)
    decreases |ops|
  {
    ops == [] || (InTime(clock, ops[0]) && ClockRuns(ops[0].now, ops[1..]))
  }

  ghost predicate InTime(clock: Time, op: Op) {
    clock <= op.now && forall id :: clock <= op.at(id) <= op.now
  }

  // ---------------------------------------------------------------- the intended table

  ghost predicate Represents(t: Table, log: seq<Op>, clock: Time) {
    && (forall id :: id in t ==> Latest(log, id) == Some(t[id]) && t[id].lastActive <= clock)
    && (forall id :: id !in t && Latest(log, id).Some? ==> !Fresh(Latest(log, id).value, clock))
  }

  /** Sixty whole seconds: anything short of the sixty-first. */
  lemma FreshMeans(r: Record, now: Time)
    requires r.lastActive <= now
    ensures Fresh(r, now) <==> now - r.lastActive < 61 * SECOND
  {
  }

  lemma StalenessLasts(r: Record, now: Time, later: Time)
    requires now <= later && !Fresh(r, now)
    ensures !Fresh(r, later)
  {
  }

  lemma LatestPush(log: seq<Op>, op: Op, id: NetworkId)
    ensures Latest(log + [op], id) ==
              if op.AddOrUpdate? && op.id == id then Some(Record(op.now, op.address)) else Latest(log, id)
  {
    assert (log + [op])[..|log|] == log;
  }

  /** After the sweep a record is there exactly if it is the latest of its id and was fresh at its
      own reading. */
  lemma SweepDecides(t: Table, log: seq<Op>, clock: Time, op: Op, id: NetworkId)
    requires Represents(t, log, clock) && InTime(clock, op)
    ensures var t' := FreshOnly(t, op.at);
            && (id in t' <==> Latest(log, id).Some? && Fresh(Latest(log, id).value, op.at(id)))
            && (id in t' ==> Latest(log, id) == Some(t'[id]) && t'[id].lastActive <= op.now)
            && (id !in t' && Latest(log, id).Some? ==> !Fresh(Latest(log, id).value, op.now))
  {
    if Latest(log, id).Some? {
      if id !in t { StalenessLasts(Latest(log, id).value, clock, op.at(id)); }
      if !Fresh(Latest(log, id).value, op.at(id)) { StalenessLasts(Latest(log, id).value, op.at(id), op.now); }
    }
  }

  lemma StepRepresents(t: Table, log: seq<Op>, clock: Time, op: Op)
    requires Represents(t, log, clock) && InTime(clock, op)
    ensures OnTable(Swept, t, op).1 == Meaning(log, op)
    ensures Represents(OnTable(Swept, t, op).0, log + [op], op.now)
  {
    var t' := FreshOnly(t, op.at);
    SweepDecides(t, log, clock, op, op.id);
    forall id
      ensures Latest(log + [op], id) ==
                if op.AddOrUpdate? && op.id == id then Some(Record(op.now, op.address)) else Latest(log, id)
      ensures id in t' ==> Latest(log, id) == Some(t'[id]) && t'[id].lastActive <= op.now
      ensures id !in t' && Latest(log, id).Some? ==> !Fresh(Latest(log, id).value, op.now)
    {
      LatestPush(log, op, id);
      SweepDecides(t, log, clock, op, id);
    }
  }

  /** As intended, under a non-decreasing clock, Find and Contains succeed exactly when the latest
      AddOrUpdate for the id is at most 60 whole seconds old and give its address, and AddOrUpdate
      reports a new peer exactly when no such record existed. */
  lemma {:induction false} TableRefinesLog(t: Table, log: seq<Op>, clock: Time, ops: seq<Op>)
    requires Represents(t, log, clock) && ClockRuns(clock, ops)
    ensures RunTable(Swept, t, ops) == RunLog(log, ops)
    decreases |ops|
  {
    if ops != [] {
      StepRepresents(t, log, clock, ops[0]);
      TableRefinesLog(OnTable(Swept, t, ops[0]).0, log + [ops[0]], ops[0].now, ops[1..]);
    }
  }

  function TableAfter(v: Sweep, t: Table, ops: seq<Op>): Table
    decreases |ops|
  {
    if ops == [] then t else TableAfter(v, OnTable(v, t, ops[0]).0, ops[1..])
  }

  /** The call `op` after `log` leaves a record of `id` exactly if it added one or its sweep found the
      latest one fresh. */
  ghost predicate HeldAfter(t: Table, log: seq<Op>, op: Op, id: NetworkId) {
    var heard := Latest(log, id);
    id in t <==> (op.AddOrUpdate? && op.id == id) || (heard.Some? && Fresh(heard.value, op.at(id)))
  }

  lemma StepHolds(t: Table, log: seq<Op>, clock: Time, op: Op, id: NetworkId)
    requires Represents(t, log, clock) && InTime(clock, op)
    ensures HeldAfter(OnTable(Swept, t, op).0, log, op, id)
  {
    SweepDecides(t, log, clock, op, id);
  }

  /** As intended the table holds, after any run, exactly the peers that were fresh at the sweep of the
      last call, and the one that call added, each with its latest record. */
  lemma {:induction false} TableHoldsExactly(t: Table, log: seq<Op>, clock: Time, ops: seq<Op>, id: NetworkId)
    requires Represents(t, log, clock) && ClockRuns(clock, ops) && ops != []
    ensures var t', n := TableAfter(Swept, t, ops), |ops| - 1;
            && HeldAfter(t', log + ops[..n], ops[n], id)
            && (id in t' ==> Latest(log + ops, id) == Some(t'[id]))
    decreases |ops|
  {
    var op, rest := ops[0], ops[1..];
    StepRepresents(t, log, clock, op);
    if rest == [] {
      StepHolds(t, log, clock, op, id);
      assert log + ops[..0] == log && ops == [op];
    } else {
      TableHoldsExactly(OnTable(Swept, t, op).0, log + [op], op.now, rest, id);
      assert ops == [op] + rest && ops[..|ops| - 1] == [op] + rest[..|rest| - 1] && ops[|ops| - 1] == rest[|rest| - 1];
      Associative(log, [op], rest);
      Associative(log, [op], rest[..|rest| - 1]);
    }
  }

  lemma EmptyTableRefinesLog(ops: seq<Op>, clock: Time)
    requires ClockRuns(clock, ops)
    ensures RunTable(Swept, map[], ops) == RunLog([], ops)
  {
    TableRefinesLog(map[], [], clock, ops);
  }

  // ---------------------------------------------------------------- the code as written

  ghost predicate HoldsAll(t: Table, log: seq<Op>) {
    forall id :: (id in t <==> Latest(log, id).Some?) && (id in t ==> Latest(log, id) == Some(t[id]))
  }

  /** As written the table keeps every peer, so a call answers as intended exactly when its id was
      never added or was last added at most 60 whole seconds ago. */
  lemma UnsweptStep(t: Table, log: seq<Op>, op: Op)
    requires HoldsAll(t, log)
    ensures OnTable(Unswept, t, op).1 == Meaning(log, op) <==>
              Latest(log, op.id).None? || Fresh(Latest(log, op.id).value, op.at(op.id))
    ensures HoldsAll(OnTable(Unswept, t, op).0, log + [op])
  {
    forall id ensures Latest(log + [op], id) ==
                        if op.AddOrUpdate? && op.id == id then Some(Record(op.now, op.address)) else Latest(log, id) {
      LatestPush(log, op, id);
    }
  }

  /** No call of the run asks about a peer that has gone stale. */
  ghost predicate NeverStale(log: seq<Op>, ops: seq<Op>)
    decreases |ops|
  {
    ops == [] ||
    ((Latest(log, ops[0].id).None? || Fresh(Latest(log, ops[0].id).value, ops[0].at(ops[0].id)))
     && NeverStale(log + [ops[0]], ops[1..]))
  }

  lemma {:induction false} UnsweptAgreesExactly(t: Table, log: seq<Op>, ops: seq<Op>)
    requires HoldsAll(t, log)
    ensures RunTable(Unswept, t, ops) == RunLog(log, ops) <==> NeverStale(log, ops)
    decreases |ops|
  {
    if ops != [] {
      UnsweptStep(t, log, ops[0]);
      var t', log' := OnTable(Unswept, t, ops[0]).0, log + [ops[0]];
      UnsweptAgreesExactly(t', log', ops[1..]);
      var a, b := RunTable(Unswept, t, ops), RunLog(log, ops);
      assert a[0] == OnTable(Unswept, t, ops[0]).1 && a[1..] == RunTable(Unswept, t', ops[1..]);
      assert b[0] == Meaning(log, ops[0]) && b[1..] == RunLog(log', ops[1..]);
      assert a == [a[0]] + a[1..] && b == [b[0]] + b[1..];
    }
  }

  /** A peer silent for 61 seconds is still found by the code as written. */
  lemma UnsweptFindsStalePeer(id: NetworkId, address: Address)
    ensures var add := AddOrUpdate(id, address, _ => 0, 0);
            var find := Find(id, _ => 61 * SECOND, 61 * SECOND);
            && OnTable(Unswept, OnTable(Unswept, map[], add).0, find).1 == Found(Some(address))
            && Meaning([] + [add], find) == Found(None)
  {
    LatestPush([], AddOrUpdate(id, address, _ => 0, 0), id);
  }

  // ---------------------------------------------------------------- the class

  /** RemoveExpiredRecords over a snapshot of the keys, reading the clock for each. */
  method RemoveExpiredRecords(table: Table, at: NetworkId -> Time) returns (kept: Table)
    ensures kept == FreshOnly(table, at)
  {
    kept := table;
    var todo := table.Keys;
    while todo != {}
      invariant todo <= table.Keys
      invariant forall id :: id in kept <==> id in table && (id in todo || Fresh(table[id], at(id)))
      invariant forall id :: id in kept ==> kept[id] == table[id]
      decreases |todo|
    {
      var id :| id in todo;
      todo := todo - {id};
      if WholeUnits(at(id) - table[id].lastActive, SECOND) > 60 {
        kept := kept - {id};
      }
    }
  }

  class PeerRecordTable {
    const sweep: Sweep
    var exclusiveTable: Table
    var peerRecordTable: Table

    /** Nothing is ever put into the other table: the code as written sweeps an empty one. */
    ghost predicate Valid()
      reads this
    {
      exclusiveTable == map[]
    }

    constructor (sweep: Sweep)
      ensures Valid() && this.sweep == sweep && peerRecordTable == map[]
    {
      this.sweep, peerRecordTable, exclusiveTable := sweep, map[], map[];
    }

    method SweepTable(at: NetworkId -> Time)
      requires Valid()
      modifies this
      ensures Valid()
      ensures peerRecordTable == if sweep.Swept? then FreshOnly(old(peerRecordTable), at) else old(peerRecordTable)
    {
      if sweep == Swept {
        peerRecordTable := RemoveExpiredRecords(peerRecordTable, at);
      } else {
        exclusiveTable := RemoveExpiredRecords(exclusiveTable, at);
      }
    }

    method Find(id: NetworkId, at: NetworkId -> Time, now: Time) returns (address: Option<Address>)
      requires Valid()
      modifies this
      ensures Valid()
      ensures (peerRecordTable, Found(address)) == OnTable(sweep, old(peerRecordTable), Op.Find(id, at, now))
    {
      SweepTable(at);
      address := if id in peerRecordTable then Some(peerRecordTable[id].address) else None;
    }

    method Contains(id: NetworkId, at: NetworkId -> Time, now: Time) returns (known: bool)
      requires Valid()
      modifies this
      ensures Valid()
      ensures peerRecordTable == OnTable(sweep, old(peerRecordTable), Op.Find(id, at, now)).0
      ensures known <==> OnTable(sweep, old(peerRecordTable), Op.Find(id, at, now)).1.address.Some?
    {
      SweepTable(at);
      known := id in peerRecordTable;
    }

    method AddOrUpdate(id: NetworkId, address: Address, at: NetworkId -> Time, now: Time) returns (isNew: bool)
      requires Valid()
      modifies this
      ensures Valid()
      ensures (peerRecordTable, Added(isNew))
              == OnTable(sweep, old(peerRecordTable), Op.AddOrUpdate(id, address, at, now))
    {
      SweepTable(at);
      if id !in peerRecordTable {
        peerRecordTable := peerRecordTable[id := Record(now, address)];
        isNew := true;
      } else {
        peerRecordTable := peerRecordTable[id := Record(now, address)];
        isNew := false;
      }
    }
  }
}
