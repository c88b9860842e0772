/** The deferred ICE candidates of a session, offered to the peer connection in passes. */
module DeferredCandidates {
  import opened Sequences

  datatype Candidate = Candidate(sdp: string)

  /** The candidates whose offer was refused; `accepts(k)` answers the k-th offer of the pass. */
  function Refused(cs: seq<Candidate>, accepts: nat -> bool): seq<Candidate> {
    if cs == [] then []
    else Refused(cs[..|cs| - 1], accepts) + (if accepts(|cs| - 1) then [] else [cs[|cs| - 1]])
  }

  function Taken(cs: seq<Candidate>, accepts: nat -> bool): seq<Candidate> {
    if cs == [] then []
    else Taken(cs[..|cs| - 1], accepts) + (if accepts(|cs| - 1) then [cs[|cs| - 1]] else [])
  }

  lemma RefusedPush(cs: seq<Candidate>, c: Candidate, accepts: nat -> bool)
    ensures Refused(cs + [c], accepts) == if accepts(|cs|) then Refused(cs, accepts) else Refused(cs, accepts) + [c]
  {
    assert (cs + [c])[..|cs|] == cs;
    Nothing(Refused(cs, accepts));
  }

  lemma TakenPush(cs: seq<Candidate>, c: Candidate, accepts: nat -> bool)
    ensures Taken(cs + [c], accepts) == if accepts(|cs|) then Taken(cs, accepts) + [c] else Taken(cs, accepts)
  {
    assert (cs + [c])[..|cs|] == cs;
    Nothing(Taken(cs, accepts));
  }

  lemma RefusedPushKeepsOrder(cs: seq<Candidate>, c: Candidate, accepts: nat -> bool)
    requires Subseq(Refused(cs, accepts), cs)
    ensures Subseq(Refused(cs + [c], accepts), cs + [c])
  {
    RefusedPush(cs, c, accepts);
    SubseqPush(Refused(cs, accepts), cs, c);
  }

  lemma {:induction false} RefusedKeepOrder(cs: seq<Candidate>, accepts: nat -> bool)
    ensures Subseq(Refused(cs, accepts), cs)
  {
    if cs != [] {
      RefusedKeepOrder(cs[..|cs| - 1], accepts);
      RefusedPushKeepsOrder(cs[..|cs| - 1], cs[|cs| - 1], accepts);
      assert cs[..|cs| - 1] + [cs[|cs| - 1]] == cs;
    }
  }

  lemma OneMore(r: multiset<Candidate>, t: multiset<Candidate>, c: Candidate)
    ensures (r + multiset{c}) + t == (r + t) + multiset{c}
    ensures r + (t + multiset{c}) == (r + t) + multiset{c}
  {
  }

  /** The places of the offers that were answered with `answer`, among the first `n`. */
  function Places(n: nat, accepts: nat -> bool, answer: bool): seq<nat> {
    if n == 0 then []
    else Places(n - 1, accepts, answer) + if accepts(n - 1) == answer then [n - 1] else []
  }

  ghost predicate Ascending(ps: seq<nat>) { forall i, j :: 0 <= i < j < |ps| ==> ps[i] < ps[j] }

  lemma {:induction false} PlacesBelow(n: nat, accepts: nat -> bool, answer: bool)
    ensures Ascending(Places(n, accepts, answer))
    ensures forall i :: 0 <= i < |Places(n, accepts, answer)| ==> Places(n, accepts, answer)[i] < n
  {
    if n > 0 { PlacesBelow(n - 1, accepts, answer); }
  }

  lemma {:induction false} PlacesAre(n: nat, accepts: nat -> bool, answer: bool, k: nat)
    ensures k in Places(n, accepts, answer) <==> k < n && accepts(k) == answer
  {
    if n > 0 {
      PlacesAre(n - 1, accepts, answer, k);
      var before := Places(n - 1, accepts, answer);
      assert k in before + [n - 1] <==> k in before || k == n - 1;
    }
  }

  /** `picked` are the candidates at these places. */
  ghost predicate PickedAt(cs: seq<Candidate>, ps: seq<nat>, picked: seq<Candidate>) {
    |picked| == |ps| && forall i :: 0 <= i < |ps| ==> ps[i] < |cs| && picked[i] == cs[ps[i]]
  }

  lemma PickedPush(cs: seq<Candidate>, c: Candidate, ps: seq<nat>, picked: seq<Candidate>)
    requires PickedAt(cs, ps, picked)
    ensures PickedAt(cs + [c], ps, picked) && PickedAt(cs + [c], ps + [|cs|], picked + [c])
  {
  }

  /** The candidate at place `k` is kept exactly if its own offer was refused, and taken exactly if it
      was accepted (`PlacesAre`); both in order (`PlacesBelow`). */
  lemma {:induction false} OwnAnswerDecides(cs: seq<Candidate>, accepts: nat -> bool)
    ensures PickedAt(cs, Places(|cs|, accepts, false), Refused(cs, accepts))
    ensures PickedAt(cs, Places(|cs|, accepts, true), Taken(cs, accepts))
  {
    if cs != [] {
      var n := |cs| - 1;
      var front, last := cs[..n], cs[n];
      assert cs == front + [last];
      OwnAnswerDecides(front, accepts);
      PickedPush(front, last, Places(n, accepts, false), Refused(front, accepts));
      PickedPush(front, last, Places(n, accepts, true), Taken(front, accepts));
      RefusedPush(front, last, accepts);
      TakenPush(front, last, accepts);
      Nothing(Places(n, accepts, false));
      Nothing(Places(n, accepts, true));
    }
  }

  ghost predicate Conserved(cs: seq<Candidate>, accepts: nat -> bool) {
    multiset(Refused(cs, accepts)) + multiset(Taken(cs, accepts)) == multiset(cs)
  }

  lemma PushConserves(cs: seq<Candidate>, c: Candidate, accepts: nat -> bool)
    requires Conserved(cs, accepts)
    ensures Conserved(cs + [c], accepts)
  {
    RefusedPush(cs, c, accepts);
    TakenPush(cs, c, accepts);
    OneMore(multiset(Refused(cs, accepts)), multiset(Taken(cs, accepts)), c);
  }

  lemma {:induction false} PassConserves(cs: seq<Candidate>, accepts: nat -> bool)
    ensures Conserved(cs, accepts)
  {
    if cs != [] {
      var front, last := cs[..|cs| - 1], cs[|cs| - 1];
      assert cs == front + [last];
      PassConserves(front, accepts);
      PushConserves(front, last, accepts);
    }
  }

  /** A pass after `k` offers, with the iterator at `it`. */
  ghost predicate MidPass(cs: seq<Candidate>, k: nat, it: nat, list: seq<Candidate>, accepts: nat -> bool) {
    k <= |cs| && it <= |list| && list[..it] == Refused(cs[..k], accepts) && list[it..] == cs[k..]
  }

  lemma MidPassStep(cs: seq<Candidate>, k: nat, it: nat, list: seq<Candidate>, accepts: nat -> bool)
    requires MidPass(cs, k, it, list, accepts) && it < |list|
    ensures k < |cs| && list[it] == cs[k] && cs[..k + 1] == cs[..k] + [cs[k]]
    ensures accepts(k) ==> MidPass(cs, k + 1, it, list[..it] + list[it + 1..], accepts)
    ensures !accepts(k) ==> MidPass(cs, k + 1, it + 1, list, accepts)
  {
    assert |list[it..]| == |cs[k..]|;
    assert list[it] == list[it..][0] == cs[k..][0] == cs[k];
    assert list[it + 1..] == list[it..][1..] == cs[k..][1..] == cs[k + 1..];
    assert cs[..k + 1] == cs[..k] + [cs[k]];
    RefusedPush(cs[..k], cs[k], accepts);
    if accepts(k) {
      var list' := list[..it] + list[it + 1..];
      assert list'[..it] == list[..it] && list'[it..] == list[it + 1..];
    } else {
      assert list[..it + 1] == list[..it] + [list[it]];
    }
  }

  lemma MidPassStart(cs: seq<Candidate>, it: nat, list: seq<Candidate>, accepts: nat -> bool)
    requires MidPass(cs, 0, it, list, accepts)
    ensures list == cs && cs[..0] == []
  {
    assert it == |list[..it]| == 0;
    assert list[0..] == list && cs[0..] == cs;
  }

  lemma MidPassEnd(cs: seq<Candidate>, k: nat, list: seq<Candidate>, accepts: nat -> bool)
    requires MidPass(cs, k, |list|, list, accepts)
    ensures cs[..k] == cs && list == Refused(cs, accepts)
  {
    assert |list[|list|..]| == |cs[k..]| == 0;
    assert list[..|list|] == list && cs[..k] == cs;
  }

  function AfterPasses(cs: seq<Candidate>, passes: seq<nat -> bool>): seq<Candidate>
    decreases |passes|
  {
    if passes == [] then cs else AfterPasses(Refused(cs, passes[0]), passes[1..])
  }

  function TakenByPasses(cs: seq<Candidate>, passes: seq<nat -> bool>): seq<Candidate>
    decreases |passes|
  {
    if passes == [] then [] else Taken(cs, passes[0]) + TakenByPasses(Refused(cs, passes[0]), passes[1..])
  }

  lemma {:induction false} SubseqSelf(cs: seq<Candidate>)
    ensures Subseq(cs, cs)
  {
    if cs != [] { SubseqSelf(cs[..|cs| - 1]); }
  }

  /** Over any number of passes no candidate is lost or accepted twice, and those still waiting
      keep their order. */
  lemma {:induction false} PassesConserve(cs: seq<Candidate>, passes: seq<nat -> bool>)
    ensures multiset(AfterPasses(cs, passes)) + multiset(TakenByPasses(cs, passes)) == multiset(cs)
    ensures Subseq(AfterPasses(cs, passes), cs)
    decreases |passes|
  {
    if passes == [] {
      SubseqSelf(cs);
    } else {
      var left := Refused(cs, passes[0]);
      PassConserves(cs, passes[0]);
      RefusedKeepOrder(cs, passes[0]);
      PassesConserve(left, passes[1..]);
      SubseqTransitive(AfterPasses(left, passes[1..]), left, cs);
    }
  }
}
