/** StatsCollection: an owning list of reports looked up by id, and the Equals family of the ids. */
module StatsCollections {

  // ---------------------------------------------------------------- ids

  datatype StatsType =
    | Session | Transport | ComponentType | CandidatePairType | BweType | Ssrc | RemoteSsrc | Track
    | IceLocalCandidate | IceRemoteCandidate | Certificate | DataChannel

  datatype Direction = ToSend | ToReceive

  /** One constructor per id class; CandidateId adds no field and no Equals to TypedId. */
  datatype Id =
    | BandwidthEstimationId
    | TypedId(type_: StatsType, name: string)
    | TypedIntId(type_: StatsType, number: int)
    | IdWithDirection(type_: StatsType, name: string, direction: Direction)
    | ComponentId(content: string, component: int)
    | CandidatePairId(content: string, component: int, index: int)
  {
    function Type(): StatsType {
      if BandwidthEstimationId? then BweType
      else if ComponentId? then ComponentType
      else if CandidatePairId? then CandidatePairType
      else type_
    }
  }

  datatype IdClass = Bare | Named | Numbered | Directed | OfComponent | OfPair

  function ClassOf(id: Id): IdClass {
    match id
    case BandwidthEstimationId => Bare
    case TypedId(_, _) => Named
    case TypedIntId(_, _) => Numbered
    case IdWithDirection(_, _, _) => Directed
    case ComponentId(_, _) => OfComponent
    case CandidatePairId(_, _, _) => OfPair
  }

  /** Whether every cast that `a.Equals(b)` makes is legal.  Once the types agree it casts `b` to the
      class of `a`, which is legal for that class and for the subclass IdWithDirection of TypedId.
      BandwidthEstimationId inherits Equals and casts nothing; IdWithDirection casts to TypedId, and
      on to its own class only if the names agree. */
  predicate Castable(a: Id, b: Id) {
    a.Type() == b.Type() ==>
      || a.BandwidthEstimationId? || ClassOf(a) == ClassOf(b)
      || (a.TypedId? && b.IdWithDirection?) || (a.IdWithDirection? && b.TypedId? && a.name != b.name)
  }

  function Equals(a: Id, b: Id): bool
    requires Castable(a, b)
  {
    a.Type() == b.Type() &&
    match a
    case BandwidthEstimationId => true
    case TypedId(_, name) => b.name == name
    case TypedIntId(_, number) => b.number == number
    case IdWithDirection(_, name, direction) => b.name == name && b.direction == direction
    case ComponentId(content, component) => b.component == component && b.content == content
    case CandidatePairId(content, component, index) =>
      b.component == component && b.content == content && b.index == index
  }

  /** Where the casts are legal Equals is equality, but for a TypedId asked about an IdWithDirection
      of its type and name and a BandwidthEstimationId asked about anything of its type; so it is an
      equivalence when each type is used with one class. */
  lemma EqualsIsEquality(a: Id, b: Id)
    requires Castable(a, b)
    ensures Equals(a, b) <==>
              || a == b
              || (a.BandwidthEstimationId? && b.Type() == BweType)
              || (a.TypedId? && b.IdWithDirection? && a.type_ == b.type_ && a.name == b.name)
  {
  }

  /** A legal comparison that succeeds. */
  predicate Matches(a: Id, b: Id) { Castable(a, b) && Equals(a, b) }

  /** An entry that takes the place of one it matches matches nothing the other did not. */
  lemma MatchesInPlace(old_: Id, new_: Id, other: Id)
    requires Matches(old_, new_) && !Matches(old_, other)
    ensures !Matches(new_, other)
  {
  }

  /** Of two different ids that match, the second may not even be asked about the first. */
  lemma MatchIsOneWay(a: Id, b: Id)
    requires Matches(a, b) && a != b
    ensures !Castable(b, a)
  {
  }

  lemma IllegalInPlace(old_: Id, new_: Id, other: Id)
    requires Matches(old_, new_) && !Castable(old_, other)
    ensures !Castable(new_, other)
  {
  }

  /** The two ways in which different ids match. */
  lemma DifferentIdsMatch(t: StatsType, name: string, d: Direction)
    ensures Matches(TypedId(t, name), IdWithDirection(t, name, d))
    ensures Matches(BandwidthEstimationId, TypedId(BweType, name))
  {
  }

  /** `classes` gives the one class each type is used with. */
  predicate Follows(classes: StatsType -> IdClass, id: Id) { ClassOf(id) == classes(id.Type()) }

  lemma MatchIsEquality(classes: StatsType -> IdClass, a: Id, b: Id)
    requires Follows(classes, a) && Follows(classes, b)
    ensures Matches(a, b) <==> a == b
  {
  }

  // ---------------------------------------------------------------- reports

  class StatsReport {
    const id: Id
    constructor (id: Id)
      ensures this.id == id
    {
      this.id := id;
    }
  }

  type Reports = seq<StatsReport>

  ghost predicate DistinctIds(list: Reports) {
    forall i, j :: 0 <= i < j < |list| ==> list[i].id != list[j].id
  }

  /** No entry matches a later one. */
  ghost predicate Separate(list: Reports) {
    forall i, j :: 0 <= i < j < |list| ==> !Matches(list[i].id, list[j].id)
  }

  ghost predicate AllFollow(classes: StatsType -> IdClass, list: Reports) {
    forall i :: 0 <= i < |list| ==> Follows(classes, list[i].id)
  }

  /** The first report that matches the id, or the length. */
  function IndexOf(list: Reports, id: Id): (r: nat)
    ensures r <= |list| && (r < |list| ==> Matches(list[r].id, id))
    ensures forall i :: 0 <= i < r ==> !Matches(list[i].id, id)
  {
    if list == [] || Matches(list[0].id, id) then 0
    else
      var r := IndexOf(list[1..], id);
      assert forall i :: 0 < i <= r ==> list[i] == list[1..][i - 1];
      r + 1
  }

  function Put(list: Reports, r: StatsReport): Reports {
    var i := IndexOf(list, r.id);
    if i == |list| then list + [r] else list[i := r]
  }

  function ReplacedBy(list: Reports, r: StatsReport): Reports {
    var i := IndexOf(list, r.id);
    if i == |list| then [] else [list[i]]
  }

  /** MergeCollection as a fold, and the reports it deletes. */
  function Merged(list: Reports, incoming: Reports): Reports
    decreases |incoming|
  {
    if incoming == [] then list else Merged(Put(list, incoming[0]), incoming[1..])
  }

  function Replaced(list: Reports, incoming: Reports): Reports
    decreases |incoming|
  {
    if incoming == [] then []
    else ReplacedBy(list, incoming[0]) + Replaced(Put(list, incoming[0]), incoming[1..])
  }

  // ---------------------------------------------------------------- merge is map override

  /** A list as a map, the last report of an id winning. */
  ghost function LastWins(list: Reports): map<Id, StatsReport> {
    if list == [] then map[] else LastWins(list[..|list| - 1])[list[|list| - 1].id := list[|list| - 1]]
  }

  lemma LastWinsPush(list: Reports, r: StatsReport)
    ensures LastWins(list + [r]) == LastWins(list)[r.id := r]
  {
    assert (list + [r])[..|list|] == list;
  }

  lemma UpdateOverrides(m: map<Id, StatsReport>, m': map<Id, StatsReport>, r: StatsReport)
    ensures (m + m')[r.id := r] == m + m'[r.id := r]
  {
  }

  lemma {:induction false} LastWinsConcat(a: Reports, b: Reports)
    ensures LastWins(a + b) == LastWins(a) + LastWins(b)
    decreases |b|
  {
    if b == [] {
      assert a + b == a;
    } else {
      var b', r := b[..|b| - 1], b[|b| - 1];
      LastWinsConcat(a, b');
      LastWinsPush(a + b', r);
      assert a + b == (a + b') + [r];
      UpdateOverrides(LastWins(a), LastWins(b'), r);
    }
  }

  lemma ReplaceLast(front: Reports, last: StatsReport, r: StatsReport)
    requires last.id == r.id
    ensures LastWins(front + [r]) == LastWins(front + [last])[r.id := r]
  {
    LastWinsPush(front, r);
    LastWinsPush(front, last);
  }

  lemma ReplaceEarlier(front: Reports, front': Reports, last: StatsReport, r: StatsReport)
    requires LastWins(front') == LastWins(front)[r.id := r] && last.id != r.id
    ensures LastWins(front' + [last]) == LastWins(front + [last])[r.id := r]
  {
    LastWinsPush(front', last);
    LastWinsPush(front, last);
    var m: map<Id, StatsReport> := LastWins(front);
    assert m[r.id := r][last.id := last] == m[last.id := last][r.id := r];
  }

  lemma {:induction false} LastWinsReplace(list: Reports, i: nat, r: StatsReport)
    requires DistinctIds(list) && i < |list| && list[i].id == r.id
    ensures LastWins(list[i := r]) == LastWins(list)[r.id := r]
    decreases |list|
  {
    var n := |list| - 1;
    var front, last := list[..n], list[n];
    assert list == front + [last];
    if i == n {
      assert list[i := r] == front + [r];
      ReplaceLast(front, last, r);
    } else {
      assert list[i := r] == front[i := r] + [last];
      LastWinsReplace(front, i, r);
      ReplaceEarlier(front, front[i := r], last, r);
    }
  }

  ghost function Ids(list: Reports): seq<Id> { seq(|list|, i requires 0 <= i < |list| => list[i].id) }

  /** The incoming ids not yet present, in order of first appearance. */
  ghost function NewIds(have: seq<Id>, incoming: Reports): seq<Id>
    decreases |incoming|
  {
    if incoming == [] then []
    else if incoming[0].id in have then NewIds(have, incoming[1..])
    else [incoming[0].id] + NewIds(have + [incoming[0].id], incoming[1..])
  }

  /** Whatever classes are mixed, no entry matches a later one afterwards. */
  lemma PutKeepsSeparate(list: Reports, r: StatsReport)
    requires Separate(list)
    ensures Separate(Put(list, r))
  {
    var i := IndexOf(list, r.id);
    forall j | i < j < |list| ensures !Matches(r.id, list[j].id) { MatchesInPlace(list[i].id, r.id, list[j].id); }
  }

  lemma {:induction false} KeysOfMap(list: Reports, id: Id)
    ensures id in LastWins(list) <==> exists k :: 0 <= k < |list| && list[k].id == id
    decreases |list|
  {
    if list != [] {
      var front, last := list[..|list| - 1], list[|list| - 1];
      KeysOfMap(front, id);
      assert list == front + [last];
      if k :| 0 <= k < |front| && front[k].id == id { assert list[k].id == id; }
      if k :| 0 <= k < |list| && list[k].id == id { assert k < |front| ==> front[k].id == id; }
    }
  }

  lemma PlainIsGone(list: Reports, i: nat, r: StatsReport)
    requires Separate(list) && i < |list| && list[i].id != r.id
    ensures list[i].id !in LastWins(list[i := r]) && list[i].id in LastWins(list)
  {
    var id := list[i].id;
    KeysOfMap(list, id);
    KeysOfMap(list[i := r], id);
    assert forall k :: 0 <= k < |list| && k != i ==> list[k].id != id;
  }

  /** One incoming report overrides the map exactly if the entry it matches, if any, has its very
      id; a directed id that lands on a plain one makes the plain one disappear. */
  lemma PutOverridesExactly(list: Reports, r: StatsReport)
    requires Separate(list)
    ensures var i := IndexOf(list, r.id);
            LastWins(Put(list, r)) == LastWins(list)[r.id := r] <==> (i < |list| ==> list[i].id == r.id)
  {
    var i := IndexOf(list, r.id);
    if i == |list| {
      LastWinsPush(list, r);
    } else if list[i].id == r.id {
      LastWinsReplace(list, i, r);
    } else {
      PlainIsGone(list, i, r);
    }
  }

  lemma PutKeepsPositions(classes: StatsType -> IdClass, list: Reports, r: StatsReport)
    requires AllFollow(classes, list) && Follows(classes, r.id)
    ensures Ids(Put(list, r)) == WithId(Ids(list), r.id)
  {
    var i := IndexOf(list, r.id);
    forall k | 0 <= k < |list| ensures Ids(list)[k] == r.id <==> Matches(list[k].id, r.id) {
      MatchIsEquality(classes, list[k].id, r.id);
    }
    if i < |list| { assert Ids(list)[i] == r.id; }
  }

  lemma PutConserves(list: Reports, r: StatsReport)
    ensures multiset(Put(list, r)) + multiset(ReplacedBy(list, r)) == multiset(list) + multiset{r}
  {
    var i := IndexOf(list, r.id);
    if i < |list| {
      assert list == list[..i] + [list[i]] + list[i + 1..];
      assert list[i := r] == list[..i] + [r] + list[i + 1..];
    }
  }

  lemma Balance<T>(kept: multiset<T>, gone: multiset<T>, had: multiset<T>, new_: multiset<T>,
                   end: multiset<T>, later: multiset<T>, rest: multiset<T>)
    requires kept + gone == had + new_ && end + later == kept + rest
    ensures end + (gone + later) == had + (new_ + rest)
  {
    assert end + (gone + later) == (end + later) + gone;
    assert (kept + rest) + gone == (kept + gone) + rest;
    assert (had + new_) + rest == had + (new_ + rest);
  }

  /** Every report of both lists is afterwards in the merged list or among the deleted, once. */
  lemma {:induction false} MergeConserves(list: Reports, incoming: Reports)
    ensures multiset(Merged(list, incoming)) + multiset(Replaced(list, incoming)) == multiset(list) + multiset(incoming)
    decreases |incoming|
  {
    if incoming != [] {
      var r, rest := incoming[0], incoming[1..];
      PutConserves(list, r);
      MergeConserves(Put(list, r), rest);
      Balance(multiset(Put(list, r)), multiset(ReplacedBy(list, r)), multiset(list), multiset{r},
              multiset(Merged(list, incoming)), multiset(Replaced(Put(list, r), rest)), multiset(rest));
      assert incoming == [r] + rest;
    }
  }

  lemma PutFollows(classes: StatsType -> IdClass, list: Reports, r: StatsReport)
    requires AllFollow(classes, list) && Follows(classes, r.id)
    ensures AllFollow(classes, Put(list, r))
  {
  }

  ghost function WithId(have: seq<Id>, id: Id): seq<Id> { if id in have then have else have + [id] }

  lemma NewIdsFirst(have: seq<Id>, incoming: Reports)
    requires incoming != []
    ensures var have' := WithId(have, incoming[0].id);
            have + NewIds(have, incoming) == have' + NewIds(have', incoming[1..])
  {
    var id := incoming[0].id;
    if id !in have {
      var more := NewIds(have + [id], incoming[1..]);
      assert (have + [id]) + more == have + ([id] + more);
    }
  }

  /** Present ids keep their places and new ones follow in order of arrival. */
  lemma {:induction false} MergeKeepsPositions(classes: StatsType -> IdClass, list: Reports, incoming: Reports)
    requires AllFollow(classes, list) && AllFollow(classes, incoming)
    ensures Ids(Merged(list, incoming)) == Ids(list) + NewIds(Ids(list), incoming)
    decreases |incoming|
  {
    if incoming == [] {
      assert Ids(list) + [] == Ids(list);
    } else {
      PutFollows(classes, list, incoming[0]);
      PutKeepsPositions(classes, list, incoming[0]);
      MergeKeepsPositions(classes, Put(list, incoming[0]), incoming[1..]);
      NewIdsFirst(Ids(list), incoming);
    }
  }

  lemma MatchingChains(a: Id, b: Id, c: Id)
    requires Matches(a, b) && Matches(b, c)
    ensures Matches(a, c)
  {
  }

  /** The entry at a place is the one that was there or an incoming one that it matches. */
  ghost predicate InPlace(was: StatsReport, incoming: Reports, now: StatsReport) {
    now == was || (now in incoming && Matches(was.id, now.id))
  }

  lemma PutStaysInPlace(list: Reports, r: StatsReport)
    ensures |list| <= |Put(list, r)| <= |list| + 1
    ensures forall k :: 0 <= k < |list| ==>
              Put(list, r)[k] == if Matches(list[k].id, r.id) && forall j :: 0 <= j < k ==> !Matches(list[j].id, r.id)
                                 then r else list[k]
    ensures |Put(list, r)| > |list| <==> forall k :: 0 <= k < |list| ==> !Matches(list[k].id, r.id)
    ensures |Put(list, r)| > |list| ==> Put(list, r)[|list|] == r
  {
  }

  /** Whatever classes are mixed: every place of the list is kept, by its report or by an incoming one
      that it matches, and what follows are incoming reports. */
  lemma {:induction false} MergeStaysInPlace(list: Reports, incoming: Reports)
    ensures |list| <= |Merged(list, incoming)|
    ensures forall k :: 0 <= k < |list| ==> InPlace(list[k], incoming, Merged(list, incoming)[k])
    ensures forall k :: |list| <= k < |Merged(list, incoming)| ==> Merged(list, incoming)[k] in incoming
    decreases |incoming|
  {
    if incoming != [] {
      var r, rest := incoming[0], incoming[1..];
      var list', end := Put(list, r), Merged(list, incoming);
      PutStaysInPlace(list, r);
      MergeStaysInPlace(list', rest);
      assert forall x :: x in rest ==> x in incoming;
      forall k | 0 <= k < |list| ensures InPlace(list[k], incoming, end[k]) {
        assert InPlace(list'[k], rest, end[k]);
        if list'[k] != list[k] && end[k] != list'[k] { MatchingChains(list[k].id, r.id, end[k].id); }
      }
      if |list'| > |list| { assert InPlace(list'[|list|], rest, end[|list|]); }
    }
  }

  lemma FirstOverridden(m: map<Id, StatsReport>, incoming: Reports)
    requires incoming != []
    ensures m[incoming[0].id := incoming[0]] + LastWins(incoming[1..]) == m + LastWins(incoming)
  {
    var r, rest := incoming[0], incoming[1..];
    assert incoming == [r] + rest;
    LastWinsConcat([r], rest);
    LastWinsPush([], r);
    assert [] + [r] == [r];
  }

  lemma PutOverrides(classes: StatsType -> IdClass, list: Reports, r: StatsReport)
    requires Separate(list) && AllFollow(classes, list) && Follows(classes, r.id)
    ensures LastWins(Put(list, r)) == LastWins(list)[r.id := r]
  {
    var i := IndexOf(list, r.id);
    if i < |list| { MatchIsEquality(classes, list[i].id, r.id); }
    PutOverridesExactly(list, r);
  }

  /** Merging keeps entries separate, whatever classes are mixed. */
  lemma {:induction false} MergeKeepsSeparate(list: Reports, incoming: Reports)
    requires Separate(list)
    ensures Separate(Merged(list, incoming))
    decreases |incoming|
  {
    if incoming != [] {
      PutKeepsSeparate(list, incoming[0]);
      MergeKeepsSeparate(Put(list, incoming[0]), incoming[1..]);
    }
  }

  /** With one class per type, merging is map override with the incoming report winning. */
  lemma {:induction false} MergeIsOverride(classes: StatsType -> IdClass, list: Reports, incoming: Reports)
    requires Separate(list) && AllFollow(classes, list) && AllFollow(classes, incoming)
    ensures LastWins(Merged(list, incoming)) == LastWins(list) + LastWins(incoming)
    decreases |incoming|
  {
    if incoming != [] {
      PutFollows(classes, list, incoming[0]);
      PutKeepsSeparate(list, incoming[0]);
      PutOverrides(classes, list, incoming[0]);
      MergeIsOverride(classes, Put(list, incoming[0]), incoming[1..]);
      FirstOverridden(LastWins(list), incoming);
    }
  }

  /** With different ids that match it is not: the first report is gone. */
  lemma MixedClassesLoseAnId(first: StatsReport, second: StatsReport)
    requires Matches(first.id, second.id) && first.id != second.id
    ensures Merged([first], [second]) == [second]
    ensures first.id !in LastWins(Merged([first], [second])) && first.id in LastWins([first]) + LastWins([second])
  {
    assert IndexOf([first], second.id) == 0;
    assert [second][1..] == [] && Merged([second], []) == [second];
    KeysOfMap([second], first.id);
    KeysOfMap([first], first.id);
    assert [first][0].id == first.id;
  }

  // ---------------------------------------------------------------- when merging is map override

  /** Every cast made until the first match is legal. */
  ghost predicate Comparable(list: Reports, id: Id) {
    forall i :: 0 <= i < IndexOf(list, id) ==> Castable(list[i].id, id)
  }

  /** Every cast that MergeCollection makes is legal. */
  ghost predicate AllComparable(list: Reports, incoming: Reports)
    decreases |incoming|
  {
    incoming == [] || (Comparable(list, incoming[0].id) && AllComparable(Put(list, incoming[0]), incoming[1..]))
  }

  /** The report takes no place of a report with another id. */
  ghost predicate Overrides(list: Reports, r: StatsReport) {
    var i := IndexOf(list, r.id);
    i < |list| ==> list[i].id == r.id
  }

  ghost predicate OverridesAll(list: Reports, incoming: Reports)
    decreases |incoming|
  {
    incoming == [] || (Overrides(list, incoming[0]) && OverridesAll(Put(list, incoming[0]), incoming[1..]))
  }

  /** The id is not in the list, and asking for it makes an illegal cast. */
  ghost predicate Lost(list: Reports, id: Id) {
    (forall k :: 0 <= k < |list| ==> list[k].id != id) && !Comparable(list, id)
  }

  lemma DisplacedIsLost(list: Reports, r: StatsReport)
    requires Separate(list) && !Overrides(list, r)
    ensures Lost(Put(list, r), list[IndexOf(list, r.id)].id)
  {
    var i := IndexOf(list, r.id);
    var id := list[i].id;
    MatchIsOneWay(id, r.id);
    forall k | 0 <= k < |list| && k != i ensures list[k].id != id && (k < i ==> !Matches(list[k].id, id)) {
      assert if k < i then !Matches(list[k].id, id) else !Matches(id, list[k].id);
    }
    assert IndexOf(Put(list, r), id) > i;
  }

  /** Asking for the id reaches entry `k`, which it may not be compared with. */
  ghost predicate BarredAt(list: Reports, k: nat, id: Id) {
    k < |list| && !Castable(list[k].id, id) && forall j :: 0 <= j < k ==> !Matches(list[j].id, id)
  }

  lemma BarredMeans(list: Reports, k: nat, id: Id)
    requires BarredAt(list, k, id)
    ensures !Comparable(list, id)
  {
    assert IndexOf(list, id) > k;
  }

  lemma BarredStays(list: Reports, r: StatsReport, k: nat, id: Id)
    requires BarredAt(list, k, id)
    ensures BarredAt(Put(list, r), k, id)
  {
    var i := IndexOf(list, r.id);
    if i == k { IllegalInPlace(list[k].id, r.id, id); }
    if i < k { MatchesInPlace(list[i].id, r.id, id); }
  }

  lemma LostStaysLost(list: Reports, r: StatsReport, id: Id)
    requires Lost(list, id) && Comparable(list, r.id)
    ensures Lost(Put(list, r), id)
  {
    var k :| 0 <= k < IndexOf(list, id) && !Castable(list[k].id, id);
    BarredStays(list, r, k, id);
    BarredMeans(Put(list, r), k, id);
  }

  lemma {:induction false} LostForGood(list: Reports, incoming: Reports, id: Id)
    requires Lost(list, id) && AllComparable(list, incoming)
    ensures id !in LastWins(Merged(list, incoming))
    decreases |incoming|
  {
    if incoming == [] {
      KeysOfMap(list, id);
    } else {
      LostStaysLost(list, incoming[0], id);
      LostForGood(Put(list, incoming[0]), incoming[1..], id);
    }
  }

  lemma DisplacementShows(list: Reports, incoming: Reports)
    requires Separate(list) && incoming != [] && AllComparable(list, incoming) && !Overrides(list, incoming[0])
    ensures LastWins(Merged(list, incoming)) != LastWins(list) + LastWins(incoming)
  {
    var i := IndexOf(list, incoming[0].id);
    DisplacedIsLost(list, incoming[0]);
    LostForGood(Put(list, incoming[0]), incoming[1..], list[i].id);
    KeysOfMap(list, list[i].id);
  }

  /** Wherever its casts are legal, merging is map override exactly if no incoming report takes the
      place of a report with another id. */
  lemma {:induction false} MergeOverridesExactly(list: Reports, incoming: Reports)
    requires Separate(list) && AllComparable(list, incoming)
    ensures LastWins(Merged(list, incoming)) == LastWins(list) + LastWins(incoming) <==> OverridesAll(list, incoming)
    decreases |incoming|
  {
    if incoming != [] {
      if Overrides(list, incoming[0]) {
        PutKeepsSeparate(list, incoming[0]);
        PutOverridesExactly(list, incoming[0]);
        MergeOverridesExactly(Put(list, incoming[0]), incoming[1..]);
        FirstOverridden(LastWins(list), incoming);
      } else {
        DisplacementShows(list, incoming);
      }
    }
  }

  // ---------------------------------------------------------------- ... in terms of the ids alone

  ghost function IdSet(list: Reports): set<Id> { set k | 0 <= k < |list| :: list[k].id }

  /** No incoming id is matched by a different id, present or earlier in the collection. */
  ghost predicate NoTakeover(have: set<Id>, incoming: Reports)
    decreases |incoming|
  {
    incoming == [] ||
    ((forall x :: x in have && Matches(x, incoming[0].id) ==> x == incoming[0].id)
     && NoTakeover(have + {incoming[0].id}, incoming[1..]))
  }

  /** The list could have been built by legal comparisons: each entry may be asked about later ones. */
  ghost predicate Legal(list: Reports) {
    forall i, j :: 0 <= i < j < |list| ==> Castable(list[i].id, list[j].id)
  }

  lemma LegalInPlace(old_: Id, new_: Id, other: Id)
    requires Matches(old_, new_) && Castable(old_, other) && !Matches(old_, other)
    ensures Castable(new_, other)
  {
  }

  lemma PutKeepsLegal(list: Reports, r: StatsReport)
    requires Legal(list) && Separate(list) && Comparable(list, r.id)
    ensures Legal(Put(list, r))
  {
    var i := IndexOf(list, r.id);
    forall j | i < j < |list| ensures Castable(r.id, list[j].id) { LegalInPlace(list[i].id, r.id, list[j].id); }
  }

  lemma OverridesMeans(list: Reports, r: StatsReport)
    requires Legal(list)
    ensures Overrides(list, r) <==> forall x :: x in IdSet(list) && Matches(x, r.id) ==> x == r.id
  {
    var i := IndexOf(list, r.id);
    if i < |list| {
      assert list[i].id in IdSet(list);
      if list[i].id == r.id {
        forall k | 0 <= k < |list| && Matches(list[k].id, r.id) ensures list[k].id == r.id {
          if list[k].id != r.id { MatchIsOneWay(list[k].id, r.id); }
        }
      }
    }
  }

  lemma IdsAfterPut(list: Reports, r: StatsReport)
    requires Overrides(list, r)
    ensures IdSet(Put(list, r)) == IdSet(list) + {r.id}
  {
    var i, list' := IndexOf(list, r.id), Put(list, r);
    assert list'[i].id == r.id;
    assert forall k :: 0 <= k < |list| ==> list'[k].id == list[k].id;
  }

  /** For a legally built list that is so exactly if no report matches a later incoming one under
      another id. */
  lemma {:induction false} OverridesAllMeans(list: Reports, incoming: Reports)
    requires Legal(list) && Separate(list) && AllComparable(list, incoming)
    ensures OverridesAll(list, incoming) <==> NoTakeover(IdSet(list), incoming)
    decreases |incoming|
  {
    if incoming != [] {
      OverridesMeans(list, incoming[0]);
      if Overrides(list, incoming[0]) {
        PutKeepsLegal(list, incoming[0]);
        PutKeepsSeparate(list, incoming[0]);
        IdsAfterPut(list, incoming[0]);
        OverridesAllMeans(Put(list, incoming[0]), incoming[1..]);
      }
    }
  }

  lemma MapAt(list: Reports, i: nat)
    requires DistinctIds(list) && i < |list|
    ensures list[i].id in LastWins(list) && LastWins(list)[list[i].id] == list[i]
  {
    LastWinsReplace(list, i, list[i]);
    assert list[i := list[i]] == list;
    KeysOfMap(list, list[i].id);
  }

  /** With one class per type, finding an id in the list is looking it up in the map. */
  lemma LookupInMap(classes: StatsType -> IdClass, list: Reports, id: Id)
    requires Separate(list) && AllFollow(classes, list) && Follows(classes, id)
    ensures var i := IndexOf(list, id);
            if i < |list| then id in LastWins(list) && LastWins(list)[id] == list[i] else id !in LastWins(list)
  {
    var i := IndexOf(list, id);
    forall k | 0 <= k < |list| ensures Matches(list[k].id, id) <==> list[k].id == id {
      MatchIsEquality(classes, list[k].id, id);
    }
    if i < |list| { MapAt(list, i); } else { KeysOfMap(list, id); }
  }

  // ---------------------------------------------------------------- the class

  ghost predicate OwnedOnce(m: multiset<StatsReport>) {
    m == multiset(set r | r in m)
  }

  lemma OwnOneMore(m: multiset<StatsReport>, r: StatsReport)
    requires OwnedOnce(m) && r !in m
    ensures OwnedOnce(m + multiset{r})
  {
  }

  lemma OwnPart(part: multiset<StatsReport>, m: multiset<StatsReport>)
    requires OwnedOnce(m) && part <= m
    ensures OwnedOnce(part)
  {
  }

  lemma Exchange<T>(kept: multiset<T>, gone: multiset<T>, had: multiset<T>,
                    new_: multiset<T>, deleted: multiset<T>, rest: multiset<T>)
    requires kept + gone == had + new_
    ensures kept + (deleted + gone) + rest == had + deleted + (new_ + rest)
  {
    assert kept + (deleted + gone) + rest == (kept + gone) + (deleted + rest);
    assert (had + new_) + (deleted + rest) == had + deleted + (new_ + rest);
  }

  /** In the middle of a merge: `rest` is still to come, the outcome is fixed. */
  ghost predicate Merging(list: Reports, deleted: multiset<StatsReport>, rest: Reports,
                          end: Reports, gone: multiset<StatsReport>, all: multiset<StatsReport>) {
    && Merged(list, rest) == end
    && deleted + multiset(Replaced(list, rest)) == gone
    && multiset(list) + deleted + multiset(rest) == all
  }

  lemma MergeStep(list: Reports, deleted: multiset<StatsReport>, rest: Reports,
                  end: Reports, gone: multiset<StatsReport>, all: multiset<StatsReport>)
    requires Merging(list, deleted, rest, end, gone, all) && OwnedOnce(all) && rest != []
    ensures Merging(Put(list, rest[0]), deleted + multiset(ReplacedBy(list, rest[0])), rest[1..], end, gone, all)
    ensures OwnedOnce(multiset(list) + deleted + multiset{rest[0]})
  {
    var r, later := rest[0], rest[1..];
    var list', deleted' := Put(list, r), deleted + multiset(ReplacedBy(list, r));
    assert rest == [r] + later;
    PutConserves(list, r);
    Exchange(multiset(list'), multiset(ReplacedBy(list, r)), multiset(list), multiset{r}, deleted, multiset(later));
    OwnPart(multiset(list) + deleted + multiset{r}, all);
    assert deleted' + multiset(Replaced(list', later))
           == deleted + (multiset(ReplacedBy(list, r)) + multiset(Replaced(list', later)));
  }

  lemma PutOwned(list: Reports, deleted: multiset<StatsReport>, r: StatsReport)
    requires OwnedOnce(multiset(list) + deleted + multiset{r})
    ensures OwnedOnce(multiset(Put(list, r)) + (deleted + multiset(ReplacedBy(list, r))))
  {
    PutConserves(list, r);
    Exchange(multiset(Put(list, r)), multiset(ReplacedBy(list, r)), multiset(list), multiset{r}, deleted, multiset{});
    OwnPart(multiset(Put(list, r)) + (deleted + multiset(ReplacedBy(list, r))), multiset(list) + deleted + multiset{r});
  }

  class StatsCollection {
    var list: Reports
    ghost var deleted: multiset<StatsReport>

    /** No entry matches a later one, and every report ever owned is owned or deleted, once. */
    ghost predicate Valid()
      reads this
    {
      Separate(list) && OwnedOnce(multiset(list) + deleted)
    }

    constructor ()
      ensures Valid() && list == [] && deleted == multiset{}
    {
      list, deleted := [], multiset{};
    }

    method FindIndex(id: Id) returns (i: nat)
      requires Comparable(list, id)
      ensures i == IndexOf(list, id)
    {
      i := 0;
      while i < |list| && !Equals(list[i].id, id)
        invariant i <= |list|
        invariant forall k :: 0 <= k < i ==> !Matches(list[k].id, id)
      {
        i := i + 1;
      }
      assert i == IndexOf(list, id);
    }

    /** The first report whose id matches, null exactly if none does. */
    method Find(id: Id) returns (report: StatsReport?)
      requires Comparable(list, id)
      ensures report == null <==> forall i :: 0 <= i < |list| ==> !Matches(list[i].id, id)
      ensures report != null ==> exists i :: 0 <= i < |list| && list[i] == report && Matches(report.id, id)
                                             && forall k :: 0 <= k < i ==> !Matches(list[k].id, id)
    {
      var i := FindIndex(id);
      report := if i == |list| then null else list[i];
    }

    /** The caller has to know that the id is new. */
    method InsertNew(id: Id) returns (report: StatsReport)
      requires Valid() && IndexOf(list, id) == |list|
      modifies this
      ensures Valid() && fresh(report) && report.id == id
      ensures list == old(list) + [report] && deleted == old(deleted)
    {
      report := new StatsReport(id);
      OwnOneMore(multiset(list) + deleted, report);
      assert multiset(list + [report]) + deleted == (multiset(list) + deleted) + multiset{report};
      list := list + [report];
    }

    method FindOrAddNew(id: Id) returns (report: StatsReport)
      requires Valid() && Comparable(list, id)
      modifies this
      ensures Valid() && deleted == old(deleted)
      ensures var i := IndexOf(old(list), id);
              if i < |old(list)| then list == old(list) && report == list[i]
              else fresh(report) && report.id == id && list == old(list) + [report]
    {
      var i := FindIndex(id);
      if i < |list| {
        report := list[i];
      } else {
        report := InsertNew(id);
      }
    }

    /** The report takes the place of the one it matches, which is deleted, or the last place. */
    method Place(report: StatsReport)
      requires Valid() && Comparable(list, report.id) && OwnedOnce(multiset(list) + deleted + multiset{report})
      modifies this
      ensures Valid() && list == Put(old(list), report)
      ensures deleted == old(deleted) + multiset(ReplacedBy(old(list), report))
    {
      PutOwned(list, deleted, report);
      PutKeepsSeparate(list, report);
      var i := FindIndex(report.id);
      if i == |list| {
        assert Put(list, report) == list + [report] && deleted + multiset(ReplacedBy(list, report)) == deleted;
        list := list + [report];
      } else {
        assert Put(list, report) == list[i := report] && ReplacedBy(list, report) == [list[i]];
        deleted := deleted + multiset{list[i]};
        list := list[i := report];
      }
    }

    /** The report the id matches, if any, is deleted and a new one with that report's own id takes
        its place. */
    method ReplaceOrAddNew(id: Id) returns (report: StatsReport)
      requires Valid() && Comparable(list, id)
      modifies this
      ensures Valid() && fresh(report)
      ensures var i := IndexOf(old(list), id);
              if i < |old(list)| then
                report.id == old(list)[i].id
                && list == old(list)[i := report]
                && deleted == old(deleted) + multiset{old(list)[i]}
              else report.id == id && list == old(list) + [report] && deleted == old(deleted)
    {
      var i := FindIndex(id);
      if i == |list| {
        report := InsertNew(id);
        return;
      }
      report := new StatsReport(list[i].id);
      OwnOneMore(multiset(list) + deleted, report);
      Swapped(list, deleted, i, report);
      deleted := deleted + multiset{list[i]};
      list := list[i := report];
    }

    static lemma Swapped(list: Reports, deleted: multiset<StatsReport>, i: nat, r: StatsReport)
      requires Separate(list) && i < |list| && r.id == list[i].id && OwnedOnce(multiset(list) + deleted + multiset{r})
      ensures Separate(list[i := r]) && OwnedOnce(multiset(list[i := r]) + (deleted + multiset{list[i]}))
    {
      assert IndexOf(list, r.id) == i;
      PutKeepsSeparate(list, r);
      PutOwned(list, deleted, r);
      assert Put(list, r) == list[i := r] && ReplacedBy(list, r) == [list[i]];
    }

    method DetachCollection() returns (reports: Reports)
      requires Valid()
      modifies this
      ensures reports == old(list) && list == [] && deleted == old(deleted) && Valid()
    {
      OwnPart(deleted, multiset(list) + deleted);
      reports := list;
      list := [];
    }

    method MergeCollection(collection: Reports)
      requires Valid() && AllComparable(list, collection)
      requires OwnedOnce(multiset(list) + deleted + multiset(collection))
      modifies this
      ensures Valid() && list == Merged(old(list), collection)
      ensures deleted == old(deleted) + multiset(Replaced(old(list), collection))
    {
      ghost var all := multiset(list) + deleted + multiset(collection);
      ghost var end, gone := Merged(list, collection), deleted + multiset(Replaced(list, collection));
      var rest := collection;
      while rest != []
        invariant Valid() && AllComparable(list, rest)
        invariant Merging(list, deleted, rest, end, gone, all)
        decreases |rest|
      {
        MergeStep(list, deleted, rest, end, gone, all);
        Place(rest[0]);
        rest := rest[1..];
      }
    }
  }
}
