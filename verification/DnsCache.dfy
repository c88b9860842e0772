/** DnsCache: answers expire lazily, when a lookup stumbles over them.  The cache is shown to be
    indistinguishable from a log of every Add ever made. */
module DnsCaches {
  import opened Common

  type Address = string
  datatype Question = Question(host: string, family: int)
  datatype Answer = Answer(addresses: seq<Address>, expires: Time)

  const FIVE_MINUTES: Time := 300 * SECOND

  type Cache = map<Question, Answer>

  /** `AddUntil` is the overload with an expiry, `Add` the one that expires five minutes from now. */
  datatype Op =
    | AddUntil(q: Question, addresses: seq<Address>, expires: Time, now: Time)
    | Add(q: Question, addresses: seq<Address>, now: Time)
    | TryGet(q: Question, now: Time)
  {
    function Stored(): Answer
      requires !TryGet?
    {
      Answer(addresses, if AddUntil? then expires else now + FIVE_MINUTES)
    }
  }

  // ---------------------------------------------------------------- the cache

  function OnCache(c: Cache, op: Op): (Cache, Option<seq<Address>>) {
    if !op.TryGet? then (c[op.q := op.Stored()], None)
    else if op.q !in c then (c, None)
    else if c[op.q].expires < op.now then (c - {op.q}, None)
    else (c, Some(c[op.q].addresses))
  }

  function RunCache(c: Cache, ops: seq<Op>): seq<Option<seq<Address>>>
    decreases |ops|
  {
    if ops == [] then [] else [OnCache(c, ops[0]).1] + RunCache(OnCache(c, ops[0]).0, ops[1..])
  }

  // ---------------------------------------------------------------- the log

  /** The last Add for `q`, if any; without an expiry it holds for five minutes. */
  function Latest(log: seq<Op>, q: Question): Option<Answer> {
    if log == [] then None
    else
      match log[|log| - 1]
      case AddUntil(q', addresses, expires, _) =>
        if q' == q then Some(Answer(addresses, expires)) else Latest(log[..|log| - 1], q)
      case Add(q', addresses, now) =>
        if q' == q then Some(Answer(addresses, now + 5 * 60 * SECOND)) else Latest(log[..|log| - 1], q)
      case TryGet(_, _) => Latest(log[..|log| - 1], q)
  }

  /** What a lookup means: the latest answer for the question unless its expiry is before now. */
  function Meaning(log: seq<Op>, op: Op): Option<seq<Address>> {
    if !op.TryGet? then None
    else
      match Latest(log, op.q)
      case None => None
      case Some(a) => if a.expires < op.now then None else Some(a.addresses)
  }

  function RunLog(log: seq<Op>, ops: seq<Op>): seq<Option<seq<Address>>>
    decreases |ops|
  {
    if ops == [] then [] else [Meaning(log, ops[0])] + RunLog(log + [ops[0]], ops[1..])
  }

  // ---------------------------------------------------------------- refinement

  /** What is missing from the cache was never added or had expired by `clock`. */
  ghost predicate Represents(c: Cache, log: seq<Op>, clock: Time) {
    && (forall q :: q in c ==> Latest(log, q) == Some(c[q]))
    && (forall q :: q !in c && Latest(log, q).Some? ==> Latest(log, q).value.expires < clock)
  }

  ghost predicate ClockRuns(clock: Time, ops: seq<Op>) {
    forall i :: 0 <= i < |ops| ==> clock <= ops[i].now && forall j :: i < j < |ops| ==> ops[i].now <= ops[j].now
  }

  lemma LatestPush(log: seq<Op>, op: Op, q: Question)
    ensures Latest(log + [op], q) == if !op.TryGet? && op.q == q then Some(op.Stored()) else Latest(log, q)
  {
    assert (log + [op])[..|log|] == log;
  }

  lemma StepRepresents(c: Cache, log: seq<Op>, clock: Time, op: Op)
    requires Represents(c, log, clock) && clock <= op.now
    ensures OnCache(c, op).1 == Meaning(log, op)
    ensures Represents(OnCache(c, op).0, log + [op], op.now)
  {
    forall q ensures Latest(log + [op], q) == if !op.TryGet? && op.q == q then Some(op.Stored()) else Latest(log, q) {
      LatestPush(log, op, q);
    }
  }

  /** For any interleaving of Add and TryGet under a non-decreasing clock, every lookup answers as
      the full log would, so lazy erasure is never visible. */
  lemma {:induction false} CacheRefinesLog(c: Cache, log: seq<Op>, clock: Time, ops: seq<Op>)
    requires Represents(c, log, clock) && ClockRuns(clock, ops)
    ensures RunCache(c, ops) == RunLog(log, ops)
    decreases |ops|
  {
    if ops != [] {
      StepRepresents(c, log, clock, ops[0]);
      CacheRefinesLog(OnCache(c, ops[0]).0, log + [ops[0]], ops[0].now, ops[1..]);
    }
  }

  lemma EmptyCacheRefinesLog(ops: seq<Op>, clock: Time)
    requires ClockRuns(clock, ops)
    ensures RunCache(map[], ops) == RunLog([], ops)
  {
    CacheRefinesLog(map[], [], clock, ops);
  }

  /** The clock matters: if it runs backwards, an erased answer is missed. */
  lemma BackwardClockShowsErasure(q: Question, a: seq<Address>)
    ensures var ops := [AddUntil(q, a, 10, 0), TryGet(q, 11), TryGet(q, 10)];
            RunCache(map[], ops) == [None, None, None] && RunLog([], ops) == [None, None, Some(a)]
  {
    var op0, op1, op2 := AddUntil(q, a, 10, 0), TryGet(q, 11), TryGet(q, 10);
    var ops := [op0, op1, op2];
    assert ops[1..] == [op1, op2] && ops[1..][1..] == [op2] && ops[1..][1..][1..] == [];
    LatestPush([], op0, q);
    LatestPush([] + [op0], op1, q);
    var c1 := OnCache(map[], op0).0;
    var c2 := OnCache(c1, op1).0;
    assert c2 == map[];
    assert RunCache(c2, [op2]) == [None] + [];
    assert RunCache(c1, [op1, op2]) == [None] + RunCache(c2, [op2]);
    assert RunLog([] + [op0] + [op1], [op2]) == [Some(a)] + [];
    assert RunLog([] + [op0], [op1, op2]) == [None] + RunLog([] + [op0] + [op1], [op2]);
  }

  // ---------------------------------------------------------------- what the cache holds, under any clock

  function CacheAfter(c: Cache, ops: seq<Op>): Cache
    decreases |ops|
  {
    if ops == [] then c else CacheAfter(OnCache(c, ops[0]).0, ops[1..])
  }

  /** `op` is a lookup of `q` that comes after the expiry of `a`. */
  predicate TooLate(op: Op, q: Question, a: Answer) { op.TryGet? && op.q == q && a.expires < op.now }

  /** The entry of one question after the operations, of which only those on it matter: what was added
      last, unless a lookup came too late for it since. */
  function Entry(before: Option<Answer>, ops: seq<Op>, q: Question): Option<Answer> {
    if ops == [] then before
    else
      var op, rest := ops[|ops| - 1], ops[..|ops| - 1];
      if op.q == q && !op.TryGet? then Latest([op], q)
      else
        var e := Entry(before, rest, q);
        if e.Some? && TooLate(op, q, e.value) then None else e
  }

  function EntryOf(c: Cache, q: Question): Option<Answer> { if q in c then Some(c[q]) else None }

  lemma {:induction false} CacheAfterPush(c: Cache, ops: seq<Op>, op: Op)
    ensures CacheAfter(c, ops + [op]) == OnCache(CacheAfter(c, ops), op).0
    decreases |ops|
  {
    if ops == [] {
      assert ([] + [op])[1..] == [];
    } else {
      assert (ops + [op])[1..] == ops[1..] + [op];
      CacheAfterPush(OnCache(c, ops[0]).0, ops[1..], op);
    }
  }

  lemma StepEntry(c: Cache, op: Op, q: Question)
    ensures EntryOf(OnCache(c, op).0, q) ==
              if op.q == q && !op.TryGet? then Latest([op], q)
              else if EntryOf(c, q).Some? && TooLate(op, q, EntryOf(c, q).value) then None
              else EntryOf(c, q)
  {
    assert [op][..0] == [];
  }

  /** Under any clock, even one that runs backwards, the cache holds exactly those entries. */
  lemma {:induction false} CacheHoldsExactly(c: Cache, ops: seq<Op>, q: Question)
    ensures EntryOf(CacheAfter(c, ops), q) == Entry(EntryOf(c, q), ops, q)
    decreases |ops|
  {
    if ops != [] {
      var rest, op := ops[..|ops| - 1], ops[|ops| - 1];
      assert ops == rest + [op];
      CacheHoldsExactly(c, rest, q);
      CacheAfterPush(c, rest, op);
      StepEntry(CacheAfter(c, rest), op, q);
    }
  }

  // ---------------------------------------------------------------- the class

  class DnsCache {
    var cacheObject: Cache

    constructor ()
      ensures cacheObject == map[]
    {
      cacheObject := map[];
    }

    method AddUntil(q: Question, addresses: seq<Address>, expires: Time, now: Time)
      modifies this
      ensures cacheObject == OnCache(old(cacheObject), Op.AddUntil(q, addresses, expires, now)).0
      ensures cacheObject == old(cacheObject)[q := Answer(addresses, expires)]
    {
      cacheObject := cacheObject[q := Answer(addresses, expires)];
    }

    method Add(q: Question, addresses: seq<Address>, now: Time)
      modifies this
      ensures cacheObject == OnCache(old(cacheObject), Op.Add(q, addresses, now)).0
      ensures cacheObject == old(cacheObject)[q := Answer(addresses, now + 5 * 60 * SECOND)]
    {
      AddUntil(q, addresses, now + FIVE_MINUTES, now);
    }

    /** `result` is the caller's vector, to which a hit is appended. */
    method TryGet(q: Question, result: seq<Address>, now: Time) returns (found: bool, result': seq<Address>)
      modifies this
      ensures cacheObject == OnCache(old(cacheObject), Op.TryGet(q, now)).0
      ensures match OnCache(old(cacheObject), Op.TryGet(q, now)).1
              case None => !found && result' == result
              case Some(addresses) => found && result' == result + addresses
    {
      result' := result;
      if q !in cacheObject {
        return false, result';
      }
      if cacheObject[q].expires < now {
        cacheObject := cacheObject - {q};
        return false, result';
      }
      var addresses := cacheObject[q].addresses;
      for i := 0 to |addresses|
        invariant result' == result + addresses[..i]
      {
        result' := result' + [addresses[i]];
      }
      assert addresses[..|addresses|] == addresses;
      found := true;
    }
  }
}
