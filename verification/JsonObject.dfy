/** web::json::object: one vector of fields, searched by lower_bound in sorted mode and by a linear
    scan in keep-order mode.  Both are shown to be the same finite map. */
module JsonObject {
  import opened Sequences

  // ---------------------------------------------------------------- keys

  type Key = string

  /** The order of std::basic_string: first differing character, else the shorter string. */
  predicate Less(a: Key, b: Key) {
    b != [] && (a == [] || a[0] < b[0] || (a[0] == b[0] && Less(a[1..], b[1..])))
  }

  lemma {:induction false} LessIsTotal(a: Key, b: Key)
    ensures Less(a, b) || a == b || Less(b, a)
    ensures !(Less(a, b) && Less(b, a))
    ensures a == b ==> !Less(a, b)
    decreases |a|
  {
    if a != [] && b != [] {
      LessIsTotal(a[1..], b[1..]);
      assert a == [a[0]] + a[1..] && b == [b[0]] + b[1..];
    }
  }

  /** `a` and `b` first differ at `i`, where `a` ends or has the smaller character. */
  predicate LessAt(a: Key, b: Key, i: nat) {
    i <= |a| && i < |b| && a[..i] == b[..i] && (i == |a| || a[i] < b[i])
  }

  lemma LessAtTail(a: Key, b: Key, i: nat)
    requires a != [] && b != [] && i > 0
    ensures LessAt(a, b, i) <==> a[0] == b[0] && LessAt(a[1..], b[1..], i - 1)
  {
    if i <= |a| && i < |b| {
      assert a[..i] == [a[0]] + a[1..][..i - 1] && b[..i] == [b[0]] + b[1..][..i - 1];
      assert a[..i][0] == a[0] && b[..i][0] == b[0];
      assert a[..i][1..] == a[1..][..i - 1] && b[..i][1..] == b[1..][..i - 1];
    }
  }

  lemma {:induction false} LessIsLexicographic(a: Key, b: Key)
    ensures Less(a, b) <==> exists i: nat :: LessAt(a, b, i)
    decreases |a|
  {
    if b == [] {
    } else if a == [] || a[0] < b[0] {
      assert LessAt(a, b, 0);
    } else {
      LessIsLexicographic(a[1..], b[1..]);
      if i: nat :| LessAt(a, b, i) {
        assert i > 0;
        LessAtTail(a, b, i);
        var j: nat := i - 1;
        assert LessAt(a[1..], b[1..], j);
      }
      if a[0] == b[0] {
        if i: nat :| LessAt(a[1..], b[1..], i) {
          LessAtTail(a, b, i + 1);
          assert LessAt(a, b, i + 1);
        }
      }
    }
  }

  lemma {:induction false} LessIsTransitive(a: Key, b: Key, c: Key)
    requires Less(a, b) && Less(b, c)
    ensures Less(a, c)
    decreases |a|
  {
    if a != [] && a[0] == b[0] && b[0] == c[0] {
      LessIsTransitive(a[1..], b[1..], c[1..]);
    }
  }

  // ---------------------------------------------------------------- fields

  datatype Field<V> = Field(key: Key, value: V)

  predicate StrictlySorted<V>(es: seq<Field<V>>) {
    forall i, j :: 0 <= i < j < |es| ==> Less(es[i].key, es[j].key)
  }

  /** Sorted with duplicates allowed: what std::sort promises. */
  predicate Ordered<V>(es: seq<Field<V>>) {
    forall i, j :: 0 <= i < j < |es| ==> !Less(es[j].key, es[i].key)
  }

  predicate DistinctKeys<V>(es: seq<Field<V>>) {
    forall i, j :: 0 <= i < j < |es| ==> es[i].key != es[j].key
  }

  predicate WellFormed<V>(keepOrder: bool, es: seq<Field<V>>) {
    if keepOrder then DistinctKeys(es) else StrictlySorted(es)
  }

  lemma StrictMeansOrderedAndDistinct<V>(es: seq<Field<V>>)
    ensures StrictlySorted(es) <==> Ordered(es) && DistinctKeys(es)
  {
    forall i, j | 0 <= i < j < |es|
      ensures Less(es[i].key, es[j].key) <==> !Less(es[j].key, es[i].key) && es[i].key != es[j].key
    {
      LessIsTotal(es[i].key, es[j].key);
    }
  }

  predicate Hit<V>(keepOrder: bool, f: Field<V>, key: Key) {
    if keepOrder then f.key == key else !Less(f.key, key)
  }

  /** Where a search stops: the first equal key, or in sorted mode the first key not below it. */
  function Locate<V>(keepOrder: bool, es: seq<Field<V>>, key: Key): (r: nat)
    ensures r <= |es|
    ensures forall i :: 0 <= i < r ==> !Hit(keepOrder, es[i], key)
    ensures r < |es| ==> Hit(keepOrder, es[r], key)
  {
    if es == [] || Hit(keepOrder, es[0], key) then 0
    else
      var r := Locate(keepOrder, es[1..], key);
      assert forall i :: 0 < i <= r ==> es[i] == es[1..][i - 1];
      r + 1
  }

  /** The map an object stands for: the first field of each key. */
  function ToMap<V>(es: seq<Field<V>>): map<Key, V> {
    if es == [] then map[] else ToMap(es[1..])[es[0].key := es[0].value]
  }

  predicate HasKey<V>(es: seq<Field<V>>, k: Key) { exists i :: 0 <= i < |es| && es[i].key == k }

  ghost predicate Denotes<V>(es: seq<Field<V>>, m: map<Key, V>) {
    && (forall i :: 0 <= i < |es| ==> es[i].key in m && m[es[i].key] == es[i].value)
    && (forall k :: k in m ==> HasKey(es, k))
  }

  lemma {:induction false} MapDenotes<V>(es: seq<Field<V>>)
    requires DistinctKeys(es)
    ensures Denotes(es, ToMap(es))
  {
    if es != [] {
      MapDenotes(es[1..]);
      assert forall i :: 0 < i < |es| ==> es[i] == es[1..][i - 1];
      forall k | k in ToMap(es) ensures HasKey(es, k) {
        if k == es[0].key {
        } else {
          var i :| 0 <= i < |es[1..]| && es[1..][i].key == k;
          assert es[i + 1].key == k;
        }
      }
    }
  }

  lemma DenotesOneMap<V>(es: seq<Field<V>>, m: map<Key, V>, m': map<Key, V>)
    requires Denotes(es, m) && Denotes(es, m')
    ensures m == m'
  {
    forall k | k in m ensures k in m' && m'[k] == m[k] { var i :| 0 <= i < |es| && es[i].key == k; }
    forall k | k in m' ensures k in m { var i :| 0 <= i < |es| && es[i].key == k; }
  }

  lemma MapIs<V>(es: seq<Field<V>>, m: map<Key, V>)
    requires DistinctKeys(es) && Denotes(es, m)
    ensures ToMap(es) == m
  {
    MapDenotes(es);
    DenotesOneMap(es, m, ToMap(es));
  }

  lemma MissedMeansAbsent<V>(keepOrder: bool, es: seq<Field<V>>, key: Key)
    requires WellFormed(keepOrder, es)
    requires var i := Locate(keepOrder, es, key); i < |es| ==> es[i].key != key
    ensures !HasKey(es, key)
  {
    LessIsTotal(key, key);
    var i := Locate(keepOrder, es, key);
    assert forall j :: i < j < |es| && !keepOrder ==> Less(es[i].key, es[j].key);
  }

  /** A search in a well-formed object finds a key exactly when the map holds it. */
  lemma LocateDecides<V>(keepOrder: bool, es: seq<Field<V>>, key: Key)
    requires WellFormed(keepOrder, es)
    ensures var i := Locate(keepOrder, es, key);
            if i < |es| && es[i].key == key then key in ToMap(es) && ToMap(es)[key] == es[i].value
            else key !in ToMap(es)
  {
    StrictMeansOrderedAndDistinct(es);
    MapDenotes(es);
    var i := Locate(keepOrder, es, key);
    if !(i < |es| && es[i].key == key) { MissedMeansAbsent(keepOrder, es, key); }
  }

  // ---------------------------------------------------------------- operations

  datatype Op<V> = Subscript(key: Key) | Assign(key: Key, value: V) | Erase(key: Key) | At(key: Key)
  datatype Outcome<V> = Found(value: V) | Done | KeyNotFound

  function InsertAt<T>(s: seq<T>, i: nat, x: T): seq<T>
    requires i <= |s|
  {
    s[..i] + [x] + s[i..]
  }

  function RemoveAt<T>(s: seq<T>, i: nat): seq<T>
    requires i < |s|
  {
    s[..i] + s[i + 1..]
  }

  /** operator[]: the key is there afterwards, with a null value if it is new. */
  function Ensured<V>(keepOrder: bool, nil: V, es: seq<Field<V>>, key: Key): (r: seq<Field<V>>)
    ensures Locate(keepOrder, es, key) < |r|
  {
    var i := Locate(keepOrder, es, key);
    if i < |es| && es[i].key == key then es else InsertAt(es, i, Field(key, nil))
  }

  function OnFields<V>(keepOrder: bool, nil: V, es: seq<Field<V>>, op: Op<V>): (seq<Field<V>>, Outcome<V>) {
    var i := Locate(keepOrder, es, op.key);
    match op
    case Subscript(k) => var es' := Ensured(keepOrder, nil, es, k); (es', Found(es'[i].value))
    case Assign(k, v) => var es' := Ensured(keepOrder, nil, es, k); (es'[i := Field(es'[i].key, v)], Done)
    case Erase(k) => if i < |es| && es[i].key == k then (RemoveAt(es, i), Done) else (es, KeyNotFound)
    case At(k) => if i < |es| && es[i].key == k then (es, Found(es[i].value)) else (es, KeyNotFound)
  }

  /** The same operations on a plain map. */
  function OnMap<V>(nil: V, m: map<Key, V>, op: Op<V>): (map<Key, V>, Outcome<V>) {
    match op
    case Subscript(k) => if k in m then (m, Found(m[k])) else (m[k := nil], Found(nil))
    case Assign(k, v) => (m[k := v], Done)
    case Erase(k) => if k in m then (m - {k}, Done) else (m, KeyNotFound)
    case At(k) => if k in m then (m, Found(m[k])) else (m, KeyNotFound)
  }

  lemma InsertAtIs<T>(s: seq<T>, i: nat, x: T)
    requires i <= |s|
    ensures |InsertAt(s, i, x)| == |s| + 1
    ensures forall j :: 0 <= j <= |s| ==> InsertAt(s, i, x)[j] == if j < i then s[j] else if j == i then x else s[j - 1]
  {
  }

  lemma InsertDistinct<V>(es: seq<Field<V>>, i: nat, f: Field<V>)
    requires DistinctKeys(es) && i <= |es| && !HasKey(es, f.key)
    ensures DistinctKeys(InsertAt(es, i, f))
  {
    InsertAtIs(es, i, f);
  }

  lemma InsertDenotes<V>(es: seq<Field<V>>, m: map<Key, V>, i: nat, f: Field<V>)
    requires DistinctKeys(es) && Denotes(es, m) && i <= |es| && f.key !in m
    ensures DistinctKeys(InsertAt(es, i, f)) && Denotes(InsertAt(es, i, f), m[f.key := f.value])
  {
    var r := InsertAt(es, i, f);
    InsertDistinct(es, i, f);
    InsertAtIs(es, i, f);
    forall k | k in m[f.key := f.value] ensures HasKey(r, k) {
      if k == f.key {
        assert r[i].key == k;
      } else {
        var j :| 0 <= j < |es| && es[j].key == k;
        assert r[if j < i then j else j + 1] == es[j];
      }
    }
  }

  lemma InsertSorts<V>(es: seq<Field<V>>, f: Field<V>)
    requires StrictlySorted(es) && !HasKey(es, f.key)
    ensures StrictlySorted(InsertAt(es, Locate(false, es, f.key), f))
  {
    var i := Locate(false, es, f.key);
    forall j | i <= j < |es| ensures Less(f.key, es[j].key) {
      LessIsTotal(f.key, es[i].key);
      if i < j { LessIsTransitive(f.key, es[i].key, es[j].key); }
    }
    InsertAtIs(es, i, f);
  }

  lemma InsertedField<V>(keepOrder: bool, es: seq<Field<V>>, f: Field<V>)
    requires WellFormed(keepOrder, es) && f.key !in ToMap(es)
    ensures var r := InsertAt(es, Locate(keepOrder, es, f.key), f);
            WellFormed(keepOrder, r) && ToMap(r) == ToMap(es)[f.key := f.value]
  {
    var i := Locate(keepOrder, es, f.key);
    StrictMeansOrderedAndDistinct(es);
    MapDenotes(es);
    if !keepOrder { InsertSorts(es, f); }
    InsertDenotes(es, ToMap(es), i, f);
    MapIs(InsertAt(es, i, f), ToMap(es)[f.key := f.value]);
  }

  lemma RemoveDenotes<V>(es: seq<Field<V>>, m: map<Key, V>, i: nat)
    requires DistinctKeys(es) && Denotes(es, m) && i < |es|
    ensures DistinctKeys(RemoveAt(es, i)) && Denotes(RemoveAt(es, i), m - {es[i].key})
  {
    var r := RemoveAt(es, i);
    forall k | k in m - {es[i].key} ensures HasKey(r, k) {
      var j :| 0 <= j < |es| && es[j].key == k;
      assert r[if j < i then j else j - 1] == es[j];
    }
  }

  lemma RemoveSorts<V>(es: seq<Field<V>>, i: nat)
    requires StrictlySorted(es) && i < |es|
    ensures StrictlySorted(RemoveAt(es, i))
  {
    var r := RemoveAt(es, i);
    assert forall j :: 0 <= j < |r| ==> r[j] == es[if j < i then j else j + 1];
  }

  lemma RemovedField<V>(keepOrder: bool, es: seq<Field<V>>, i: nat)
    requires WellFormed(keepOrder, es) && i < |es|
    ensures WellFormed(keepOrder, RemoveAt(es, i)) && ToMap(RemoveAt(es, i)) == ToMap(es) - {es[i].key}
  {
    StrictMeansOrderedAndDistinct(es);
    MapDenotes(es);
    if !keepOrder { RemoveSorts(es, i); }
    RemoveDenotes(es, ToMap(es), i);
    MapIs(RemoveAt(es, i), ToMap(es) - {es[i].key});
  }

  lemma UpdateDenotes<V>(es: seq<Field<V>>, m: map<Key, V>, i: nat, v: V)
    requires DistinctKeys(es) && Denotes(es, m) && i < |es|
    ensures var r := es[i := Field(es[i].key, v)];
            DistinctKeys(r) && Denotes(r, m[es[i].key := v]) && (StrictlySorted(es) ==> StrictlySorted(r))
  {
    var r := es[i := Field(es[i].key, v)];
    assert forall j :: 0 <= j < |es| ==> r[j].key == es[j].key;
    forall k | k in m[es[i].key := v] ensures HasKey(r, k) {
      var j :| 0 <= j < |es| && es[j].key == k;
      assert r[j].key == k;
    }
  }

  lemma UpdatedField<V>(keepOrder: bool, es: seq<Field<V>>, i: nat, v: V)
    requires WellFormed(keepOrder, es) && i < |es|
    ensures var r := es[i := Field(es[i].key, v)];
            WellFormed(keepOrder, r) && ToMap(r) == ToMap(es)[es[i].key := v]
  {
    StrictMeansOrderedAndDistinct(es);
    MapDenotes(es);
    UpdateDenotes(es, ToMap(es), i, v);
    MapIs(es[i := Field(es[i].key, v)], ToMap(es)[es[i].key := v]);
  }

  lemma EnsuredField<V>(keepOrder: bool, nil: V, es: seq<Field<V>>, key: Key)
    requires WellFormed(keepOrder, es)
    ensures var r := Ensured(keepOrder, nil, es, key);
            && WellFormed(keepOrder, r)
            && r[Locate(keepOrder, es, key)].key == key
            && ToMap(r) == OnMap(nil, ToMap(es), Subscript(key)).0
  {
    LocateDecides(keepOrder, es, key);
    if key !in ToMap(es) {
      InsertedField(keepOrder, es, Field(key, nil));
    }
  }

  ghost predicate Refines<V>(keepOrder: bool, nil: V, es: seq<Field<V>>, op: Op<V>) {
    var (es', out) := OnFields(keepOrder, nil, es, op);
    WellFormed(keepOrder, es') && (ToMap(es'), out) == OnMap(nil, ToMap(es), op)
  }

  lemma SubscriptRefines<V>(keepOrder: bool, nil: V, es: seq<Field<V>>, k: Key)
    requires WellFormed(keepOrder, es)
    ensures Refines(keepOrder, nil, es, Subscript(k))
  {
    EnsuredField(keepOrder, nil, es, k);
    var r := Ensured(keepOrder, nil, es, k);
    StrictMeansOrderedAndDistinct(r);
    MapDenotes(r);
  }

  lemma AssignRefines<V>(keepOrder: bool, nil: V, es: seq<Field<V>>, k: Key, v: V)
    requires WellFormed(keepOrder, es)
    ensures Refines(keepOrder, nil, es, Assign(k, v))
  {
    EnsuredField(keepOrder, nil, es, k);
    UpdatedField(keepOrder, Ensured(keepOrder, nil, es, k), Locate(keepOrder, es, k), v);
    assert ToMap(es)[k := nil][k := v] == ToMap(es)[k := v];
  }

  lemma EraseRefines<V>(keepOrder: bool, nil: V, es: seq<Field<V>>, k: Key)
    requires WellFormed(keepOrder, es)
    ensures Refines(keepOrder, nil, es, Erase(k))
  {
    LocateDecides(keepOrder, es, k);
    if k in ToMap(es) { RemovedField(keepOrder, es, Locate(keepOrder, es, k)); }
  }

  lemma StepRefinesMap<V>(keepOrder: bool, nil: V, es: seq<Field<V>>, op: Op<V>)
    requires WellFormed(keepOrder, es)
    ensures Refines(keepOrder, nil, es, op)
  {
    match op
    case Subscript(k) => SubscriptRefines(keepOrder, nil, es, k);
    case Assign(k, v) => AssignRefines(keepOrder, nil, es, k, v);
    case Erase(k) => EraseRefines(keepOrder, nil, es, k);
    case At(k) => LocateDecides(keepOrder, es, k);
  }

  function RunFields<V>(keepOrder: bool, nil: V, es: seq<Field<V>>, ops: seq<Op<V>>): (seq<Field<V>>, seq<Outcome<V>>)
    decreases |ops|
  {
    if ops == [] then (es, [])
    else
      var (es', out) := OnFields(keepOrder, nil, es, ops[0]);
      var (end, outs) := RunFields(keepOrder, nil, es', ops[1..]);
      (end, [out] + outs)
  }

  function RunMap<V>(nil: V, m: map<Key, V>, ops: seq<Op<V>>): (map<Key, V>, seq<Outcome<V>>)
    decreases |ops|
  {
    if ops == [] then (m, [])
    else
      var (m', out) := OnMap(nil, m, ops[0]);
      var (end, outs) := RunMap(nil, m', ops[1..]);
      (end, [out] + outs)
  }

  /** Over any sequence of operations an object answers like the map it stands for, and a sorted
      object stays strictly sorted. */
  lemma {:induction false} RunRefinesMap<V>(keepOrder: bool, nil: V, es: seq<Field<V>>, ops: seq<Op<V>>)
    requires WellFormed(keepOrder, es)
    ensures var (end, outs) := RunFields(keepOrder, nil, es, ops);
            WellFormed(keepOrder, end) && (ToMap(end), outs) == RunMap(nil, ToMap(es), ops)
    decreases |ops|
  {
    if ops != [] {
      StepRefinesMap(keepOrder, nil, es, ops[0]);
      RunRefinesMap(keepOrder, nil, OnFields(keepOrder, nil, es, ops[0]).0, ops[1..]);
    }
  }

  /** The two modes cannot be told apart by their answers or by their contents as maps. */
  lemma ModesAgree<V>(nil: V, sorted: seq<Field<V>>, kept: seq<Field<V>>, ops: seq<Op<V>>)
    requires StrictlySorted(sorted) && DistinctKeys(kept) && ToMap(sorted) == ToMap(kept)
    ensures RunFields(false, nil, sorted, ops).1 == RunFields(true, nil, kept, ops).1
    ensures ToMap(RunFields(false, nil, sorted, ops).0) == ToMap(RunFields(true, nil, kept, ops).0)
  {
    RunRefinesMap(false, nil, sorted, ops);
    RunRefinesMap(true, nil, kept, ops);
  }

  // ---------------------------------------------------------------- duplicate keys

  /** The values of a key, in order. */
  function Values<V>(es: seq<Field<V>>, k: Key): seq<V> {
    if es == [] then [] else OwnValue(es[0], k) + Values(es[1..], k)
  }

  function OwnValue<V>(f: Field<V>, k: Key): seq<V> { if f.key == k then [f.value] else [] }

  lemma ValuesCons<V>(f: Field<V>, rest: seq<Field<V>>, k: Key)
    ensures Values([f] + rest, k) == OwnValue(f, k) + Values(rest, k)
  {
    assert ([f] + rest)[1..] == rest;
  }

  predicate Searched<V>(keepOrder: bool, es: seq<Field<V>>) { keepOrder || Ordered(es) }

  lemma {:induction false} ValuesConcat<V>(a: seq<Field<V>>, b: seq<Field<V>>, k: Key)
    ensures Values(a + b, k) == Values(a, k) + Values(b, k)
    decreases |a|
  {
    if a == [] {
      Nothing(b);
      Nothing(Values(b, k));
    } else {
      ValuesConcat(a[1..], b, k);
      ValuesCons(a[0], a[1..] + b, k);
      assert a + b == [a[0]] + (a[1..] + b);
      Associative(OwnValue(a[0], k), Values(a[1..], k), Values(b, k));
    }
  }

  lemma {:induction false} NoValues<V>(es: seq<Field<V>>, k: Key)
    requires forall i :: 0 <= i < |es| ==> es[i].key != k
    ensures Values(es, k) == []
  {
    if es != [] { NoValues(es[1..], k); }
  }

  lemma ValuesAround<V>(es: seq<Field<V>>, i: nat, k: Key)
    requires i < |es|
    ensures Values(es, k) == Values(es[..i], k) + (OwnValue(es[i], k) + Values(es[i + 1..], k))
  {
    assert es == es[..i] + ([es[i]] + es[i + 1..]);
    ValuesConcat(es[..i], [es[i]] + es[i + 1..], k);
    ValuesCons(es[i], es[i + 1..], k);
  }

  lemma BeforeAndAfter<V>(keepOrder: bool, es: seq<Field<V>>, key: Key)
    requires Searched(keepOrder, es)
    ensures var i := Locate(keepOrder, es, key);
            && (forall j :: 0 <= j < i ==> es[j].key != key)
            && (i < |es| && es[i].key != key ==> forall j :: 0 <= j < |es| ==> es[j].key != key)
  {
    LessIsTotal(key, key);
    var i := Locate(keepOrder, es, key);
    if i < |es| && es[i].key != key {
      LessIsTotal(es[i].key, key);
      forall j | i < j < |es| ensures es[j].key != key { assert !Less(es[j].key, es[i].key); }
    }
  }

  lemma FirstOfItsKey<V>(es: seq<Field<V>>, i: nat, key: Key)
    requires i < |es| && es[i].key == key && forall j :: 0 <= j < i ==> es[j].key != key
    ensures Values(es[..i], key) == [] && Values(es, key) == [es[i].value] + Values(es[i + 1..], key)
  {
    NoValues(es[..i], key);
    ValuesAround(es, i, key);
    Nothing([es[i].value] + Values(es[i + 1..], key));
  }

  /** The search finds the first value of the key, or there is none. */
  ghost predicate FoundFirst<V>(keepOrder: bool, es: seq<Field<V>>, key: Key) {
    var i := Locate(keepOrder, es, key);
    if i < |es| && es[i].key == key then
      Values(es[..i], key) == [] && Values(es, key) == [es[i].value] + Values(es[i + 1..], key)
    else Values(es, key) == []
  }

  lemma LocateFindsFirst<V>(keepOrder: bool, es: seq<Field<V>>, key: Key)
    requires Searched(keepOrder, es)
    ensures FoundFirst(keepOrder, es, key)
  {
    var i := Locate(keepOrder, es, key);
    BeforeAndAfter(keepOrder, es, key);
    if i < |es| && es[i].key == key {
      FirstOfItsKey(es, i, key);
    } else {
      NoValues(es, key);
    }
  }

  /** What an operation does to the values of its key, and answers. */
  function OnValues<V>(nil: V, vs: seq<V>, op: Op<V>): (seq<V>, Outcome<V>) {
    match op
    case Subscript(_) => if vs == [] then ([nil], Found(nil)) else (vs, Found(vs[0]))
    case Assign(_, v) => if vs == [] then ([v], Done) else ([v] + vs[1..], Done)
    case Erase(_) => if vs == [] then (vs, KeyNotFound) else (vs[1..], Done)
    case At(_) => if vs == [] then (vs, KeyNotFound) else (vs, Found(vs[0]))
  }

  lemma InsertedBetween<T>(a: seq<T>, x: seq<T>, b: seq<T>)
    requires x == [] || a + b == []
    ensures a + (x + b) == if x == [] then a + b else x
  {
    if x != [] { assert |a + b| == 0 && a == [] && b == []; }
  }

  lemma InsertedValues<V>(es: seq<Field<V>>, i: nat, f: Field<V>, k: Key)
    requires i <= |es| && (k == f.key ==> Values(es, k) == [])
    ensures Values(InsertAt(es, i, f), k) == if k == f.key then [f.value] else Values(es, k)
  {
    var a, b := es[..i], es[i..];
    assert es == a + b && InsertAt(es, i, f) == a + ([f] + b);
    ValuesConcat(a, b, k);
    ValuesConcat(a, [f] + b, k);
    ValuesCons(f, b, k);
    InsertedBetween(Values(a, k), OwnValue(f, k), Values(b, k));
  }

  lemma RemovedBetween<T>(a: seq<T>, x: seq<T>, b: seq<T>)
    requires x == [] || a == []
    ensures a + b == if x == [] then a + (x + b) else b
  {
    Nothing(b);
  }

  lemma RemovedValues<V>(es: seq<Field<V>>, i: nat, k: Key)
    requires i < |es| && (k == es[i].key ==> Values(es[..i], k) == [])
    ensures Values(RemoveAt(es, i), k) == if k == es[i].key then Values(es[i + 1..], k) else Values(es, k)
  {
    ValuesAround(es, i, k);
    ValuesConcat(es[..i], es[i + 1..], k);
    RemovedBetween(Values(es[..i], k), OwnValue(es[i], k), Values(es[i + 1..], k));
  }

  lemma UpdatedValues<V>(es: seq<Field<V>>, i: nat, v: V, k: Key)
    requires i < |es| && (k == es[i].key ==> Values(es[..i], k) == [])
    ensures Values(es[i := Field(es[i].key, v)], k) ==
              if k == es[i].key then [v] + Values(es[i + 1..], k) else Values(es, k)
    ensures k == es[i].key ==> Values(es, k) == [es[i].value] + Values(es[i + 1..], k)
  {
    var r := es[i := Field(es[i].key, v)];
    ValuesAround(es, i, k);
    ValuesAround(r, i, k);
    assert r[..i] == es[..i] && r[i + 1..] == es[i + 1..];
  }

  lemma EnsuredValues<V>(keepOrder: bool, nil: V, es: seq<Field<V>>, key: Key, k: Key)
    requires Searched(keepOrder, es)
    ensures var i := Locate(keepOrder, es, key);
            var r := Ensured(keepOrder, nil, es, key);
            && r[i].key == key && Values(r[..i], key) == []
            && r[i].value == (if Values(es, key) == [] then nil else Values(es, key)[0])
            && Values(r, k) == if k == key && Values(es, key) == [] then [nil] else Values(es, k)
  {
    var i := Locate(keepOrder, es, key);
    LocateFindsFirst(keepOrder, es, key);
    BeforeAndAfter(keepOrder, es, key);
    if !(i < |es| && es[i].key == key) {
      InsertedValues(es, i, Field(key, nil), k);
      assert InsertAt(es, i, Field(key, nil))[..i] == es[..i];
      NoValues(es[..i], key);
    }
  }

  /** What an operation leaves as the values of any key, its own or not. */
  ghost predicate LeavesValues<V>(keepOrder: bool, nil: V, es: seq<Field<V>>, op: Op<V>, k: Key) {
    Values(OnFields(keepOrder, nil, es, op).0, k) ==
      if k == op.key then OnValues(nil, Values(es, k), op).0 else Values(es, k)
  }

  lemma SubscriptLeaves<V>(keepOrder: bool, nil: V, es: seq<Field<V>>, key: Key, k: Key)
    requires Searched(keepOrder, es)
    ensures LeavesValues(keepOrder, nil, es, Subscript(key), k)
  {
    EnsuredValues(keepOrder, nil, es, key, k);
  }

  lemma AssignLeaves<V>(keepOrder: bool, nil: V, es: seq<Field<V>>, key: Key, v: V, k: Key)
    requires Searched(keepOrder, es)
    ensures LeavesValues(keepOrder, nil, es, Assign(key, v), k)
  {
    EnsuredValues(keepOrder, nil, es, key, k);
    UpdatedValues(Ensured(keepOrder, nil, es, key), Locate(keepOrder, es, key), v, k);
  }

  lemma WithoutHead<T>(x: T, rest: seq<T>)
    ensures [x] + rest != [] && ([x] + rest)[1..] == rest
  {
  }

  lemma FirstRemoved<V>(es: seq<Field<V>>, i: nat, k: Key)
    requires i < |es| && Values(es[..i], es[i].key) == []
    requires Values(es, es[i].key) == [es[i].value] + Values(es[i + 1..], es[i].key)
    ensures Values(es, es[i].key) != []
    ensures Values(RemoveAt(es, i), k) == if k == es[i].key then Values(es, k)[1..] else Values(es, k)
  {
    RemovedValues(es, i, k);
    WithoutHead(es[i].value, Values(es[i + 1..], es[i].key));
  }

  lemma ErasedFields<V>(keepOrder: bool, nil: V, es: seq<Field<V>>, key: Key)
    ensures var i := Locate(keepOrder, es, key);
            OnFields(keepOrder, nil, es, Erase(key)).0 == if i < |es| && es[i].key == key then RemoveAt(es, i) else es
  {
  }

  lemma EraseLeavesFirst<V>(keepOrder: bool, nil: V, es: seq<Field<V>>, key: Key, k: Key)
    requires FoundFirst(keepOrder, es, key)
    ensures LeavesValues(keepOrder, nil, es, Erase(key), k)
  {
    var i := Locate(keepOrder, es, key);
    ErasedFields(keepOrder, nil, es, key);
    if i < |es| && es[i].key == key { FirstRemoved(es, i, k); }
  }

  lemma EraseLeaves<V>(keepOrder: bool, nil: V, es: seq<Field<V>>, key: Key, k: Key)
    requires Searched(keepOrder, es)
    ensures LeavesValues(keepOrder, nil, es, Erase(key), k)
  {
    LocateFindsFirst(keepOrder, es, key);
    EraseLeavesFirst(keepOrder, nil, es, key, k);
  }

  lemma StepLeaves<V>(keepOrder: bool, nil: V, es: seq<Field<V>>, op: Op<V>, k: Key)
    requires Searched(keepOrder, es)
    ensures LeavesValues(keepOrder, nil, es, op, k)
  {
    match op
    case At(key) => LocateFindsFirst(keepOrder, es, key);
    case Subscript(key) => SubscriptLeaves(keepOrder, nil, es, key, k);
    case Assign(key, v) => AssignLeaves(keepOrder, nil, es, key, v, k);
    case Erase(key) => EraseLeaves(keepOrder, nil, es, key, k);
  }

  /** With duplicates too, and in both modes: an operation answers from the first value of its key,
      works on that value, and leaves the values of every other key alone. */
  lemma StepWorksOnFirst<V>(keepOrder: bool, nil: V, es: seq<Field<V>>, op: Op<V>, k: Key)
    requires Searched(keepOrder, es)
    ensures OnFields(keepOrder, nil, es, op).1 == OnValues(nil, Values(es, op.key), op).1
    ensures Values(OnFields(keepOrder, nil, es, op).0, k) ==
              if k == op.key then OnValues(nil, Values(es, k), op).0 else Values(es, k)
  {
    StepLeaves(keepOrder, nil, es, op, k);
    LocateFindsFirst(keepOrder, es, op.key);
    EnsuredValues(keepOrder, nil, es, op.key, op.key);
  }

  lemma SideOf<V>(es: seq<Field<V>>, it: nat, key: Key)
    requires Ordered(es) && it < |es|
    ensures Less(es[it].key, key) ==> forall i :: 0 <= i <= it ==> Less(es[i].key, key)
    ensures !Less(es[it].key, key) ==> forall i :: it <= i < |es| ==> !Less(es[i].key, key)
  {
    forall i | 0 <= i < |es| && i != it
      ensures i < it && Less(es[it].key, key) ==> Less(es[i].key, key)
      ensures it < i && Less(es[i].key, key) ==> Less(es[it].key, key)
    {
      LessIsTotal(es[i].key, es[it].key);
      if i < it && Less(es[it].key, key) && es[i].key != es[it].key {
        LessIsTransitive(es[i].key, es[it].key, key);
      }
      if it < i && Less(es[i].key, key) && es[i].key != es[it].key {
        LessIsTransitive(es[it].key, es[i].key, key);
      }
    }
  }

  lemma StaysOrdered<V>(es: seq<Field<V>>, f: Field<V>)
    requires Ordered(es)
    ensures Ordered(InsertAt(es, Locate(false, es, f.key), f))
  {
    var i := Locate(false, es, f.key);
    if i < |es| { SideOf(es, i, f.key); }
    forall j | 0 <= j < i ensures !Less(f.key, es[j].key) { LessIsTotal(f.key, es[j].key); }
    InsertKeepsOrder(es, i, f);
  }

  lemma RemoveStaysOrdered<V>(es: seq<Field<V>>, i: nat)
    requires Ordered(es) && i < |es|
    ensures Ordered(RemoveAt(es, i))
  {
    var r := RemoveAt(es, i);
    assert forall j :: 0 <= j < |r| ==> r[j] == es[if j < i then j else j + 1];
  }

  lemma UpdateStaysOrdered<V>(es: seq<Field<V>>, i: nat, v: V)
    requires Ordered(es) && i < |es|
    ensures Ordered(es[i := Field(es[i].key, v)])
  {
    var r := es[i := Field(es[i].key, v)];
    assert forall j :: 0 <= j < |r| ==> r[j].key == es[j].key;
  }

  lemma StepStaysSearched<V>(keepOrder: bool, nil: V, es: seq<Field<V>>, op: Op<V>)
    requires Searched(keepOrder, es)
    ensures Searched(keepOrder, OnFields(keepOrder, nil, es, op).0)
  {
    if !keepOrder {
      var i := Locate(keepOrder, es, op.key);
      StaysOrdered(es, Field(op.key, nil));
      if op.Assign? { UpdateStaysOrdered(Ensured(keepOrder, nil, es, op.key), i, op.value); }
      if op.Erase? && i < |es| { RemoveStaysOrdered(es, i); }
    }
  }

  /** The values of a key after operations, of which only those on that key matter. */
  function RunValues<V>(nil: V, vs: seq<V>, ops: seq<Op<V>>, k: Key): seq<V>
    decreases |ops|
  {
    if ops == [] then vs
    else RunValues(nil, if ops[0].key == k then OnValues(nil, vs, ops[0]).0 else vs, ops[1..], k)
  }

  /** So over any operations, and a sorted object stays sorted. */
  lemma {:induction false} RunWorksOnFirst<V>(keepOrder: bool, nil: V, es: seq<Field<V>>, ops: seq<Op<V>>, k: Key)
    requires Searched(keepOrder, es)
    ensures var end := RunFields(keepOrder, nil, es, ops).0;
            Searched(keepOrder, end) && Values(end, k) == RunValues(nil, Values(es, k), ops, k)
    decreases |ops|
  {
    if ops != [] {
      StepWorksOnFirst(keepOrder, nil, es, ops[0], k);
      StepStaysSearched(keepOrder, nil, es, ops[0]);
      RunWorksOnFirst(keepOrder, nil, OnFields(keepOrder, nil, es, ops[0]).0, ops[1..], k);
    }
  }

  // ---------------------------------------------------------------- the order that is kept

  function KeysInOrder<V>(es: seq<Field<V>>): seq<Key> { seq(|es|, i requires 0 <= i < |es| => es[i].key) }

  /** The list without its first occurrence of the key. */
  function Without(keys: seq<Key>, k: Key): seq<Key> {
    if keys == [] then [] else if keys[0] == k then keys[1..] else [keys[0]] + Without(keys[1..], k)
  }

  /** The key order an operation leaves: a new key comes last, an erased one is dropped, and nothing
      else moves. */
  function OnKeys<V>(keys: seq<Key>, op: Op<V>): seq<Key> {
    match op
    case Subscript(k) => if k in keys then keys else keys + [k]
    case Assign(k, _) => if k in keys then keys else keys + [k]
    case Erase(k) => Without(keys, k)
    case At(_) => keys
  }

  function RunKeys<V>(keys: seq<Key>, ops: seq<Op<V>>): seq<Key>
    decreases |ops|
  {
    if ops == [] then keys else RunKeys(OnKeys(keys, ops[0]), ops[1..])
  }

  lemma {:induction false} WithoutAt(keys: seq<Key>, i: nat, k: Key)
    requires i < |keys| && keys[i] == k && forall j :: 0 <= j < i ==> keys[j] != k
    ensures Without(keys, k) == keys[..i] + keys[i + 1..]
    decreases |keys|
  {
    if i > 0 {
      WithoutAt(keys[1..], i - 1, k);
      assert keys[..i] == [keys[0]] + keys[1..][..i - 1] && keys[1..][i..] == keys[i + 1..];
    }
  }

  lemma {:induction false} WithoutNothing(keys: seq<Key>, k: Key)
    requires k !in keys
    ensures Without(keys, k) == keys
  {
    if keys != [] {
      WithoutNothing(keys[1..], k);
      assert keys == [keys[0]] + keys[1..];
    }
  }

  lemma KeysOfChange<V>(es: seq<Field<V>>, i: nat, v: V)
    requires i < |es|
    ensures KeysInOrder(es[i := Field(es[i].key, v)]) == KeysInOrder(es)
    ensures KeysInOrder(RemoveAt(es, i)) == KeysInOrder(es)[..i] + KeysInOrder(es)[i + 1..]
  {
    var r := RemoveAt(es, i);
    assert forall j :: 0 <= j < |r| ==> r[j] == es[if j < i then j else j + 1];
  }

  lemma KeysOfAppend<V>(es: seq<Field<V>>, f: Field<V>)
    ensures InsertAt(es, |es|, f) == es + [f] && KeysInOrder(es + [f]) == KeysInOrder(es) + [f.key]
  {
  }

  lemma StepKeepsKeyOrder<V>(nil: V, es: seq<Field<V>>, op: Op<V>)
    ensures KeysInOrder(OnFields(true, nil, es, op).0) == OnKeys(KeysInOrder(es), op)
  {
    var keys := KeysInOrder(es);
    var i := Locate(true, es, op.key);
    assert forall j :: 0 <= j < i ==> keys[j] != op.key;
    if i < |es| {
      assert keys[i] == op.key;
      WithoutAt(keys, i, op.key);
      KeysOfChange(es, i, if op.Assign? then op.value else nil);
    } else {
      assert op.key !in keys;
      WithoutNothing(keys, op.key);
      KeysOfAppend(es, Field(op.key, nil));
      KeysOfChange(es + [Field(op.key, nil)], i, if op.Assign? then op.value else nil);
    }
  }

  /** Over any operations on a keep-order object, with or without duplicates, the order of the keys is
      the one its operations dictate. */
  lemma {:induction false} KeepOrderKeepsOrder<V>(nil: V, es: seq<Field<V>>, ops: seq<Op<V>>)
    ensures KeysInOrder(RunFields(true, nil, es, ops).0) == RunKeys(KeysInOrder(es), ops)
    decreases |ops|
  {
    if ops != [] {
      StepKeepsKeyOrder(nil, es, ops[0]);
      KeepOrderKeepsOrder(nil, OnFields(true, nil, es, ops[0]).0, ops[1..]);
    }
  }

  // ---------------------------------------------------------------- canonical form

  lemma HeadIsLeast<V>(a: seq<Field<V>>, b: seq<Field<V>>)
    requires StrictlySorted(a) && StrictlySorted(b) && ToMap(a) == ToMap(b) && a != []
    ensures b != [] && a[0] == b[0]
  {
    StrictMeansOrderedAndDistinct(a);
    StrictMeansOrderedAndDistinct(b);
    MapDenotes(a);
    MapDenotes(b);
    assert HasKey(b, a[0].key) && HasKey(a, b[0].key);
    LessIsTotal(a[0].key, b[0].key);
  }

  lemma TailsAgree<V>(a: seq<Field<V>>, b: seq<Field<V>>)
    requires StrictlySorted(a) && StrictlySorted(b) && ToMap(a) == ToMap(b) && a != [] && b != [] && a[0] == b[0]
    ensures StrictlySorted(a[1..]) && StrictlySorted(b[1..]) && ToMap(a[1..]) == ToMap(b[1..])
  {
    RemovedField(false, a, 0);
    RemovedField(false, b, 0);
    assert RemoveAt(a, 0) == a[1..] && RemoveAt(b, 0) == b[1..];
  }

  lemma {:induction false} SameMapSameFields<V>(a: seq<Field<V>>, b: seq<Field<V>>)
    requires StrictlySorted(a) && StrictlySorted(b) && ToMap(a) == ToMap(b)
    ensures a == b
    decreases |a|
  {
    if a != [] {
      HeadIsLeast(a, b);
      TailsAgree(a, b);
      SameMapSameFields(a[1..], b[1..]);
      assert a == [a[0]] + a[1..] && b == [b[0]] + b[1..];
    } else if b != [] {
      HeadIsLeast(b, a);
    }
  }

  /** Element-wise equality is map equality for sorted objects; for keep-order objects it asks for
      the same key order as well. */
  lemma EqualityIsCanonical<V>(keepOrder: bool, a: seq<Field<V>>, b: seq<Field<V>>)
    requires WellFormed(keepOrder, a) && WellFormed(keepOrder, b)
    ensures a == b <==> ToMap(a) == ToMap(b) && (keepOrder ==> KeysInOrder(a) == KeysInOrder(b))
  {
    if ToMap(a) == ToMap(b) && (keepOrder ==> KeysInOrder(a) == KeysInOrder(b)) {
      if keepOrder {
        assert |a| == |KeysInOrder(a)| == |KeysInOrder(b)| == |b|;
        forall i | 0 <= i < |a| ensures a[i] == b[i] {
          assert a[i].key == KeysInOrder(a)[i] == KeysInOrder(b)[i] == b[i].key;
          MapDenotes(a);
          MapDenotes(b);
        }
      } else {
        SameMapSameFields(a, b);
      }
    }
  }

  /** Two histories of a sorted object that end in the same map end in the same vector, whatever
      order the keys were inserted in. */
  lemma InsertionOrderIsForgotten<V>(nil: V, es: seq<Field<V>>, ops: seq<Op<V>>, ops': seq<Op<V>>)
    requires StrictlySorted(es)
    requires RunMap(nil, ToMap(es), ops).0 == RunMap(nil, ToMap(es), ops').0
    ensures RunFields(false, nil, es, ops).0 == RunFields(false, nil, es, ops').0
  {
    RunRefinesMap(false, nil, es, ops);
    RunRefinesMap(false, nil, es, ops');
    EqualityIsCanonical(false, RunFields(false, nil, es, ops).0, RunFields(false, nil, es, ops').0);
  }

  /** In keep-order mode the same map can be two unequal objects. */
  lemma KeepOrderIsNotCanonical<V>(x: V, y: V)
    ensures var a, b := [Field("a", x), Field("b", y)], [Field("b", y), Field("a", x)];
            DistinctKeys(a) && DistinctKeys(b) && ToMap(a) == ToMap(b) && a != b
  {
    var a, b := [Field("a", x), Field("b", y)], [Field("b", y), Field("a", x)];
    PermutationKeepsMap(a, b);
  }

  // ---------------------------------------------------------------- the class

  lemma LocateIsUnique<V>(keepOrder: bool, es: seq<Field<V>>, key: Key, r: nat)
    requires r <= |es|
    requires forall i :: 0 <= i < r ==> !Hit(keepOrder, es[i], key)
    requires r < |es| ==> Hit(keepOrder, es[r], key)
    ensures r == Locate(keepOrder, es, key)
  {
  }

  lemma InsertKeepsAll<T>(s: seq<T>, i: nat, x: T)
    requires i <= |s|
    ensures multiset(InsertAt(s, i, x)) == multiset(s) + multiset{x}
  {
    assert s == s[..i] + s[i..];
  }

  lemma InsertKeepsOrder<V>(es: seq<Field<V>>, i: nat, f: Field<V>)
    requires Ordered(es) && i <= |es|
    requires forall j :: 0 <= j < i ==> !Less(f.key, es[j].key)
    requires forall j :: i <= j < |es| ==> !Less(es[j].key, f.key)
    ensures Ordered(InsertAt(es, i, f)) && multiset(InsertAt(es, i, f)) == multiset(es) + multiset{f}
  {
    InsertAtIs(es, i, f);
    InsertKeepsAll(es, i, f);
  }

  /** Inserts one field into an ordered list, after the keys not above it. */
  method InsertOrdered<V>(es: seq<Field<V>>, f: Field<V>) returns (r: seq<Field<V>>)
    requires Ordered(es)
    ensures Ordered(r) && multiset(r) == multiset(es) + multiset{f}
  {
    var i := |es|;
    while i > 0 && Less(f.key, es[i - 1].key)
      invariant 0 <= i <= |es|
      invariant forall j :: i <= j < |es| ==> Less(f.key, es[j].key)
    {
      i := i - 1;
    }
    r := es[..i] + [f] + es[i..];
    forall j | 0 <= j < |es| ensures if j < i then !Less(f.key, es[j].key) else !Less(es[j].key, f.key) {
      if j < i {
        LessIsTotal(es[i - 1].key, es[j].key);
        if Less(f.key, es[j].key) && es[i - 1].key != es[j].key {
          LessIsTransitive(f.key, es[j].key, es[i - 1].key);
        }
      } else {
        LessIsTotal(f.key, es[j].key);
      }
    }
    InsertKeepsOrder(es, i, f);
  }

  method SortFields<V>(es: seq<Field<V>>) returns (r: seq<Field<V>>)
    ensures Ordered(r) && multiset(r) == multiset(es)
  {
    r := [];
    for n := 0 to |es|
      invariant Ordered(r) && multiset(r) == multiset(es[..n])
    {
      r := InsertOrdered(r, es[n]);
      assert es[..n + 1] == es[..n] + [es[n]];
    }
    assert es[..|es|] == es;
  }

  lemma PermutationKeepsMap<V>(es: seq<Field<V>>, r: seq<Field<V>>)
    requires multiset(r) == multiset(es) && DistinctKeys(es)
    ensures DistinctKeys(r) && ToMap(r) == ToMap(es)
  {
    forall i, j | 0 <= i < j < |r| ensures r[i].key != r[j].key {
      if r[i].key == r[j].key {
        var a :| 0 <= a < |es| && es[a] == r[i] by { assert r[i] in multiset(es); }
        var b :| 0 <= b < |es| && es[b] == r[j] by { assert r[j] in multiset(es); }
        assert a == b;
        TwiceCounted(r, i, j);
        OnceCounted(es, a);
      }
    }
    MapDenotes(es);
    forall i | 0 <= i < |r| ensures r[i] in es { assert r[i] in multiset(es); }
    forall k | k in ToMap(es) ensures HasKey(r, k) {
      var a :| 0 <= a < |es| && es[a].key == k;
      assert es[a] in multiset(r);
    }
    MapIs(r, ToMap(es));
  }

  lemma TwiceCounted<T>(s: seq<T>, i: nat, j: nat)
    requires i < j < |s| && s[i] == s[j]
    ensures multiset(s)[s[i]] >= 2
  {
    assert s == s[..i] + [s[i]] + s[i + 1..j] + [s[j]] + s[j + 1..];
  }

  lemma OnceCounted<V>(es: seq<Field<V>>, a: nat)
    requires DistinctKeys(es) && a < |es|
    ensures multiset(es)[es[a]] == 1
  {
    assert es == es[..a] + [es[a]] + es[a + 1..];
    assert es[a] !in es[..a] && es[a] !in es[a + 1..];
  }

  class Object<V(==)> {
    var fields: seq<Field<V>>
    const keepOrder: bool
    const nil: V

    /** What every search relies on; duplicates are harmless to it. */
    ghost predicate Searchable()
      reads this
    {
      keepOrder || Ordered(fields)
    }

    constructor Empty(keepOrder: bool, nil: V)
      ensures this.keepOrder == keepOrder && this.nil == nil
      ensures Searchable() && WellFormed(keepOrder, fields) && ToMap(fields) == map[]
    {
      this.keepOrder, this.nil, fields := keepOrder, nil, [];
    }

    /** Sorts unless order is kept; from distinct keys the object is well-formed and stands for the
        map of the given elements. */
    constructor FromElements(elements: seq<Field<V>>, keepOrder: bool, nil: V)
      ensures this.keepOrder == keepOrder && this.nil == nil && Searchable()
      ensures multiset(fields) == multiset(elements) && (keepOrder ==> fields == elements)
      ensures DistinctKeys(elements) ==> WellFormed(keepOrder, fields) && ToMap(fields) == ToMap(elements)
    {
      var sorted := elements;
      if !keepOrder {
        sorted := SortFields(elements);
      }
      if DistinctKeys(elements) {
        PermutationKeepsMap(elements, sorted);
        StrictMeansOrderedAndDistinct(sorted);
      }
      this.keepOrder, this.nil, fields := keepOrder, nil, sorted;
    }

    /** std::find_if or std::lower_bound. */
    method FindInsertLocation(key: Key) returns (first: nat)
      requires Searchable()
      ensures first == Locate(keepOrder, fields, key)
    {
      first := 0;
      if keepOrder {
        while first < |fields| && fields[first].key != key
          invariant first <= |fields|
          invariant forall i :: 0 <= i < first ==> !Hit(true, fields[i], key)
        {
          first := first + 1;
        }
      } else {
        var count := |fields|;
        while count > 0
          invariant 0 <= count && first + count <= |fields|
          invariant forall i :: 0 <= i < first ==> Less(fields[i].key, key)
          invariant forall i :: first + count <= i < |fields| ==> !Less(fields[i].key, key)
        {
          var step := count / 2;
          var it := first + step;
          SideOf(fields, it, key);
          if Less(fields[it].key, key) {
            first, count := it + 1, count - (step + 1);
          } else {
            count := step;
          }
        }
      }
      LocateIsUnique(keepOrder, fields, key, first);
    }

    /** The index of the key's field, or the size of the object. */
    method FindByKey(key: Key) returns (i: nat)
      requires Searchable()
      ensures i <= |fields| && (i < |fields| ==> fields[i].key == key)
      ensures WellFormed(keepOrder, fields) ==> (i < |fields| <==> key in ToMap(fields))
    {
      i := FindInsertLocation(key);
      if WellFormed(keepOrder, fields) { LocateDecides(keepOrder, fields, key); }
      if i < |fields| && key != fields[i].key {
        i := |fields|;
      }
    }

    method Subscript(key: Key) returns (value: V)
      requires Searchable()
      modifies this
      ensures Searchable()
      ensures (fields, Found(value)) == OnFields(keepOrder, nil, old(fields), Op.Subscript(key))
    {
      var i := FindInsertLocation(key);
      if i == |fields| || key != fields[i].key {
        if !keepOrder { StaysOrdered(fields, Field(key, nil)); }
        fields := fields[..i] + [Field(key, nil)] + fields[i..];
      }
      value := fields[i].value;
    }

    /** `object[key] = value`. */
    method Assign(key: Key, value: V)
      requires Searchable()
      modifies this
      ensures Searchable()
      ensures (fields, Done) == OnFields(keepOrder, nil, old(fields), Op.Assign(key, value))
    {
      var i := FindInsertLocation(key);
      var v := Subscript(key);
      fields := fields[i := Field(fields[i].key, value)];
    }

    method Erase(key: Key) returns (out: Outcome<V>)
      requires Searchable()
      modifies this
      ensures Searchable()
      ensures (fields, out) == OnFields(keepOrder, nil, old(fields), Op.Erase(key))
    {
      var i := FindInsertLocation(key);
      if i == |fields| || key != fields[i].key {
        return KeyNotFound;
      }
      fields := fields[..i] + fields[i + 1..];
      return Done;
    }

    method At(key: Key) returns (out: Outcome<V>)
      requires Searchable()
      ensures (fields, out) == OnFields(keepOrder, nil, fields, Op.At(key))
    {
      var i := FindInsertLocation(key);
      out := if i == |fields| || key != fields[i].key then KeyNotFound else Found(fields[i].value);
    }

    /** Element-wise comparison, hence map equality for two sorted objects. */
    method IsEqual(other: Object<V>) returns (r: bool)
      ensures WellFormed(keepOrder, fields) && WellFormed(keepOrder, other.fields) ==>
                (r <==> ToMap(fields) == ToMap(other.fields)
                        && (keepOrder ==> KeysInOrder(fields) == KeysInOrder(other.fields)))
      ensures r <==> fields == other.fields
    {
      if WellFormed(keepOrder, fields) && WellFormed(keepOrder, other.fields) {
        EqualityIsCanonical(keepOrder, fields, other.fields);
      }
      if |fields| != |other.fields| {
        return false;
      }
      for i := 0 to |fields|
        invariant fields[..i] == other.fields[..i]
      {
        if fields[i] != other.fields[i] {
          return false;
        }
      }
      return true;
    }
  }
}
