/** The field-trial string: "key/value/" repeated.  The parser is shown to accept exactly the
    printed pair lists and to build the map in which the first binding of a key wins. */
module FieldTrials {

  datatype Pair = Pair(key: string, value: string)

  datatype Fault =
    | MissingSeparator     // no '/' after a key
    | EmptyKey
    | MissingValue         // the string ends after "key/"
    | MissingTerminator    // no '/' after a value
    | EmptyValue

  datatype Result = Ok(trials: map<string, string>) | Aborted(fault: Fault)

  // ---------------------------------------------------------------- the grammar

  predicate Part(s: string) { s != "" && '/' !in s }

  predicate WellFormed(ps: seq<Pair>) {
    forall i :: 0 <= i < |ps| ==> Part(ps[i].key) && Part(ps[i].value)
  }

  function Print(ps: seq<Pair>): string {
    if ps == [] then "" else ps[0].key + "/" + ps[0].value + "/" + Print(ps[1..])
  }

  /** The documented form: "key/value/", pair after pair. */
  lemma Format(k1: string, v1: string, k2: string, v2: string)
    ensures Print([Pair(k1, v1), Pair(k2, v2)]) == k1 + "/" + v1 + "/" + k2 + "/" + v2 + "/"
  {
    var ps := [Pair(k1, v1), Pair(k2, v2)];
    assert ps[1..] == [Pair(k2, v2)] && ps[1..][1..] == [];
    assert Print(ps[1..]) == k2 + "/" + v2 + "/" + "";
    assert Print(ps) == k1 + "/" + v1 + "/" + (k2 + "/" + v2 + "/" + "");
  }

  /** The map of a pair list, earlier bindings overriding later ones. */
  function FirstWins(ps: seq<Pair>): map<string, string> {
    if ps == [] then map[] else FirstWins(ps[1..])[ps[0].key := ps[0].value]
  }

  /** What is wrong at the start of the unread rest of the string. */
  ghost predicate Faulty(rest: string, fault: Fault) {
    match fault
    case MissingSeparator => rest != "" && '/' !in rest
    case EmptyKey => exists x :: rest == "/" + x
    case MissingValue => exists k :: Part(k) && rest == k + "/"
    case MissingTerminator => exists k, v :: Part(k) && Part(v) && rest == k + "/" + v
    case EmptyValue => exists k, x :: Part(k) && rest == k + "/" + ("/" + x)
  }

  // ---------------------------------------------------------------- unique readability

  lemma SplitIsUnique(a: string, x: string, b: string, y: string)
    requires '/' !in a && '/' !in b && a + "/" + x == b + "/" + y
    ensures a == b && x == y
  {
    var s := a + "/" + x;
    assert s[|a|] == '/' && s[|b|] == '/';
    assert s[..|a|] == a && s[..|b|] == b;
    assert |a| == |b|;
    assert s[|a| + 1..] == x && s[|b| + 1..] == y;
  }

  lemma PrintedHead(ps: seq<Pair>)
    requires ps != []
    ensures Print(ps) == ps[0].key + "/" + (ps[0].value + "/" + Print(ps[1..]))
  {
  }

  lemma FirstPair(ps: seq<Pair>, k: string, v: string, tail: string)
    requires WellFormed(ps) && '/' !in k && '/' !in v && Print(ps) == k + "/" + (v + "/" + tail)
    ensures ps != [] && ps[0] == Pair(k, v) && Print(ps[1..]) == tail
  {
    assert Print(ps)[|k|] == '/';
    PrintedHead(ps);
    SplitIsUnique(ps[0].key, ps[0].value + "/" + Print(ps[1..]), k, v + "/" + tail);
    SplitIsUnique(ps[0].value, Print(ps[1..]), v, tail);
  }

  /** A printed list that starts like `done` starts with `done`. */
  lemma {:induction false} ReadPrefix(done: seq<Pair>, ps: seq<Pair>, rest: string)
    requires WellFormed(done) && WellFormed(ps) && Print(ps) == Print(done) + rest
    ensures done <= ps && Print(ps[|done|..]) == rest
    decreases |done|
  {
    if done == [] {
      assert ps[0..] == ps && Print(done) + rest == rest;
    } else {
      var d := done[0];
      PrintedHead(done);
      assert Print(done) + rest == d.key + "/" + (d.value + "/" + (Print(done[1..]) + rest));
      FirstPair(ps, d.key, d.value, Print(done[1..]) + rest);
      ReadPrefix(done[1..], ps[1..], rest);
      assert done == [d] + done[1..] && ps == [d] + ps[1..];
      assert ps[1..][|done[1..]|..] == ps[|done|..];
    }
  }

  lemma {:induction false} PrintPush(done: seq<Pair>, p: Pair)
    ensures Print(done + [p]) == Print(done) + (p.key + "/" + (p.value + "/"))
    decreases |done|
  {
    if done == [] {
      assert done + [p] == [p] && [p][1..] == [];
      assert Print([p]) == p.key + "/" + p.value + "/" + "";
    } else {
      PrintPush(done[1..], p);
      assert (done + [p])[1..] == done[1..] + [p];
    }
  }

  lemma {:induction false} FirstWinsPush(done: seq<Pair>, p: Pair)
    ensures FirstWins(done + [p]) ==
              if p.key in FirstWins(done) then FirstWins(done) else FirstWins(done)[p.key := p.value]
    decreases |done|
  {
    if done == [] {
      assert done + [p] == [p] && [p][1..] == [];
    } else {
      FirstWinsPush(done[1..], p);
      assert (done + [p])[1..] == done[1..] + [p];
    }
  }

  /** The map holds exactly the keys of the list, each with its first value. */
  lemma {:induction false} FirstBindingWins(ps: seq<Pair>, i: nat)
    requires i < |ps| && forall j :: 0 <= j < i ==> ps[j].key != ps[i].key
    ensures ps[i].key in FirstWins(ps) && FirstWins(ps)[ps[i].key] == ps[i].value
    decreases |ps|
  {
    if i > 0 {
      assert forall j :: 0 <= j < i - 1 ==> ps[1..][j].key != ps[1..][i - 1].key;
      FirstBindingWins(ps[1..], i - 1);
    }
  }

  lemma {:induction false} NoOtherKeys(ps: seq<Pair>, key: string)
    requires key in FirstWins(ps)
    ensures exists i :: 0 <= i < |ps| && ps[i].key == key
    decreases |ps|
  {
    if ps[0].key != key {
      NoOtherKeys(ps[1..], key);
      var i :| 0 <= i < |ps[1..]| && ps[1..][i].key == key;
      assert ps[i + 1].key == key;
    }
  }

  lemma KeyIsPrinted(ps: seq<Pair>, k: string, x: string)
    requires WellFormed(ps) && ps != [] && '/' !in k && Print(ps) == k + "/" + x
    ensures k == ps[0].key && x == ps[0].value + "/" + Print(ps[1..])
  {
    PrintedHead(ps);
    SplitIsUnique(k, x, ps[0].key, ps[0].value + "/" + Print(ps[1..]));
  }

  lemma ValueIsPrinted(ps: seq<Pair>, x: string)
    requires WellFormed(ps) && ps != []
    ensures |Print(ps)| > |ps[0].key| + 1 && Print(ps)[|ps[0].key|] == '/' && '/' in ps[0].value + "/" + Print(ps[1..])
    ensures ps[0].value + "/" + Print(ps[1..]) != "/" + x && Print(ps) != "/" + x
  {
    assert Print(ps)[0] == ps[0].key[0];
    assert Print(ps)[|ps[0].key|] == '/';
    assert (ps[0].value + "/" + Print(ps[1..]))[|ps[0].value|] == '/';
    assert (ps[0].value + "/" + Print(ps[1..]))[0] == ps[0].value[0];
  }

  /** Nothing printed starts with a faulty rest. */
  lemma FaultIsNotPrinted(ps: seq<Pair>, fault: Fault)
    requires WellFormed(ps)
    ensures !Faulty(Print(ps), fault)
  {
    if ps != [] {
      ValueIsPrinted(ps, "");
      match fault {
        case MissingSeparator =>
        case EmptyKey =>
          forall x ensures Print(ps) != "/" + x { ValueIsPrinted(ps, x); }
        case MissingValue =>
        case MissingTerminator =>
          forall k, v | Part(k) && Part(v) && Print(ps) == k + "/" + v ensures v == ps[0].value + "/" + Print(ps[1..]) {
            KeyIsPrinted(ps, k, v);
          }
        case EmptyValue =>
          forall k, x | Part(k) && Print(ps) == k + "/" + ("/" + x)
            ensures "/" + x == ps[0].value + "/" + Print(ps[1..])
          {
            KeyIsPrinted(ps, k, "/" + x);
          }
          forall x ensures ps[0].value + "/" + Print(ps[1..]) != "/" + x { ValueIsPrinted(ps, x); }
      }
    }
  }

  // ---------------------------------------------------------------- the parser

  /** string_view::find('/'), with the length for npos. */
  method FindSlash(s: string) returns (pos: nat)
    ensures pos <= |s| && '/' !in s[..pos]
    ensures if pos < |s| then s == s[..pos] + "/" + s[pos + 1..] else s == s[..pos]
  {
    pos := 0;
    while pos < |s| && s[pos] != '/'
      invariant pos <= |s| && '/' !in s[..pos]
    {
      pos := pos + 1;
    }
  }

  ghost predicate Accepted(s: string) { exists ps :: WellFormed(ps) && Print(ps) == s }

  ghost predicate FaultAfter(s: string, done: seq<Pair>, rest: string, fault: Fault) {
    WellFormed(done) && s == Print(done) + rest && Faulty(rest, fault)
  }

  lemma NotAccepted(s: string, done: seq<Pair>, rest: string, fault: Fault)
    requires FaultAfter(s, done, rest, fault)
    ensures !Accepted(s)
  {
    if ps :| WellFormed(ps) && Print(ps) == s {
      ReadPrefix(done, ps, rest);
      FaultIsNotPrinted(ps[|done|..], fault);
      assert false;
    }
  }

  datatype Step = Next(pair: Pair, rest: string) | Bad(fault: Fault)

  /** The loop body: one key and one value off the front of the string. */
  method ReadPair(s: string) returns (r: Step)
    requires s != ""
    ensures r.Bad? ==> Faulty(s, r.fault)
    ensures r.Next? ==> Part(r.pair.key) && Part(r.pair.value) && s == r.pair.key + "/" + (r.pair.value + "/") + r.rest
  {
    var pos := FindSlash(s);
    if pos == |s| {
      return Bad(MissingSeparator);
    }
    var key, afterKey := s[..pos], s[pos + 1..];
    if pos == 0 {
      assert s == "/" + afterKey;
      return Bad(EmptyKey);
    }
    assert Part(key);
    if afterKey == "" {
      assert s == key + "/";
      return Bad(MissingValue);
    }
    pos := FindSlash(afterKey);
    if pos == |afterKey| {
      assert Part(afterKey);
      return Bad(MissingTerminator);
    }
    var value, afterValue := afterKey[..pos], afterKey[pos + 1..];
    if pos == 0 {
      assert afterKey == "/" + afterValue;
      return Bad(EmptyValue);
    }
    assert Part(value);
    assert key + "/" + (value + "/" + afterValue) == key + "/" + (value + "/") + afterValue;
    return Next(Pair(key, value), afterValue);
  }

  /** Accepts exactly the printed lists, building the first-wins map of the one that prints as `s`;
      otherwise names the fault that follows a well-formed beginning. */
  method InsertIntoMap(s: string) returns (r: Result)
    ensures r.Ok? <==> Accepted(s)
    ensures forall ps :: WellFormed(ps) && Print(ps) == s ==> r == Ok(FirstWins(ps))
    ensures r.Aborted? ==> exists done, rest :: FaultAfter(s, done, rest, r.fault)
  {
    var trials: map<string, string> := map[];
    var rest := s;
    ghost var done: seq<Pair> := [];
    while rest != ""
      invariant WellFormed(done) && s == Print(done) + rest
      invariant trials == FirstWins(done)
      decreases |rest|
    {
      var step := ReadPair(rest);
      if step.Bad? {
        assert FaultAfter(s, done, rest, step.fault);
        NotAccepted(s, done, rest, step.fault);
        return Aborted(step.fault);
      }
      var p := step.pair;
      PrintPush(done, p);
      FirstWinsPush(done, p);
      assert Print(done) + (p.key + "/" + (p.value + "/") + step.rest) == Print(done + [p]) + step.rest;
      done := done + [p];
      if p.key !in trials {
        trials := trials[p.key := p.value];
      }
      rest := step.rest;
    }
    r := Ok(trials);
    assert Print(done) == s;
    forall ps | WellFormed(ps) && Print(ps) == s ensures ps == done {
      ReadPrefix(done, ps, "");
    }
  }
}
