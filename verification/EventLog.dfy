/** RtcEventLogOutputFile: a log file that closes itself at the first write that fails or would
    exceed the size limit. */
module EventLog {
  import opened Common
  import opened Sequences

  /** Arithmetic of size_t. */
  const SIZE_RANGE := 0x1_0000_0000_0000_0000

  /** kMaxReasonableFileSize. */
  const MAX_REASONABLE := (SIZE_RANGE - 1) / 2

  /** `limit` 0 is kUnlimitedOutput; `content` is what the file holds. */
  datatype Log = Log(limit: nat, written: nat, active: bool, content: Bytes)

  /** One call of Write, and how many of its bytes the operating system takes. */
  datatype Attempt = Attempt(output: Bytes, taken: nat)

  predicate Possible(a: Attempt) { a.taken <= |a.output| }

  /** The debug check of Write on the size of one output. */
  predicate Reasonable(a: Attempt) { |a.output| < MAX_REASONABLE }

  predicate CheckPasses(limit: nat, written: nat, size: nat) {
    limit == 0 || (written + size) % SIZE_RANGE <= limit
  }

  /** Write; a call on an inactive log is a caller's error and changes nothing here. */
  function OnWrite(l: Log, a: Attempt): (Log, bool)
    requires Possible(a)
  {
    if !l.active then (l, false)
    else if !CheckPasses(l.limit, l.written, |a.output|) then (l.(active := false), false)
    else if a.taken < |a.output| then (l.(active := false, content := l.content + a.output[..a.taken]), false)
    else (l.(written := (l.written + |a.output|) % SIZE_RANGE, content := l.content + a.output), true)
  }

  function Run(l: Log, attempts: seq<Attempt>): Log
    requires forall i :: 0 <= i < |attempts| ==> Possible(attempts[i])
    decreases |attempts|
  {
    if attempts == [] then l else Run(OnWrite(l, attempts[0]).0, attempts[1..])
  }

  function Concatenated(attempts: seq<Attempt>): Bytes {
    if attempts == [] then [] else attempts[0].output + Concatenated(attempts[1..])
  }

  /** The bytes written are counted exactly, up to the width of the counter, and stay in the limit. */
  ghost predicate Counted(l: Log) {
    && l.limit <= MAX_REASONABLE && l.written < SIZE_RANGE
    && (l.limit > 0 ==> l.written <= l.limit && |l.content| <= l.limit)
    && (l.active ==> l.written == |l.content| % SIZE_RANGE)
  }

  /** For sizes of any width the check is the true comparison exactly when the sum does not wrap;
      a wrapped sum always passes. */
  lemma SizeCheckExact(limit: nat, written: nat, size: nat)
    requires limit <= MAX_REASONABLE && (limit > 0 ==> written <= limit) && size < SIZE_RANGE
    ensures limit > 0 ==>
              ((CheckPasses(limit, written, size) <==> written + size <= limit) <==> written + size < SIZE_RANGE)
    ensures limit > 0 && size < MAX_REASONABLE ==> written + size < SIZE_RANGE
  {
    if limit > 0 && written + size >= SIZE_RANGE {
      assert (written + size) % SIZE_RANGE == written + size - SIZE_RANGE;
    }
  }

  lemma CountingWraps(count: nat, size: nat)
    ensures (count % SIZE_RANGE + size) % SIZE_RANGE == (count + size) % SIZE_RANGE
  {
    var q := count / SIZE_RANGE;
    assert count == q * SIZE_RANGE + count % SIZE_RANGE;
    var s := count % SIZE_RANGE + size;
    assert count + size == (q + s / SIZE_RANGE) * SIZE_RANGE + s % SIZE_RANGE;
  }

  lemma SmallCount(count: nat)
    requires count < SIZE_RANGE
    ensures count % SIZE_RANGE == count
  {
  }

  lemma WriteCounted(l: Log, a: Attempt)
    requires Counted(l) && Possible(a) && Reasonable(a)
    ensures Counted(OnWrite(l, a).0)
    ensures l.active ==>
              (OnWrite(l, a).1 <==> (l.limit == 0 || |l.content| + |a.output| <= l.limit) && a.taken == |a.output|)
    ensures OnWrite(l, a).1 ==> OnWrite(l, a).0.active
  {
    SizeCheckExact(l.limit, l.written, |a.output|);
    CountingWraps(|l.content|, |a.output|);
    if l.limit > 0 {
      SmallCount(|l.content|);
      SmallCount(l.written + |a.output|);
    }
  }

  /** Over any run of writes: a limited file never exceeds its limit, the file is a prefix of the
      concatenation of what was attempted and all of it while active, and an inactive log stays so
      with its contents unchanged. */
  lemma {:induction false} RunsStayWithinLimit(l: Log, attempts: seq<Attempt>)
    requires Counted(l)
    requires forall i :: 0 <= i < |attempts| ==> Possible(attempts[i]) && Reasonable(attempts[i])
    ensures var l' := Run(l, attempts);
            && Counted(l') && l'.limit == l.limit
            && (l'.limit > 0 ==> |l'.content| <= l'.limit)
            && l.content <= l'.content <= l.content + Concatenated(attempts)
            && (l'.active ==> l.active && l'.content == l.content + Concatenated(attempts))
            && (!l.active ==> l' == l)
    decreases |attempts|
  {
    if attempts == [] {
      assert l.content + [] == l.content;
    } else {
      var a, rest := attempts[0], attempts[1..];
      var l1 := OnWrite(l, a).0;
      WriteCounted(l, a);
      RunsStayWithinLimit(l1, rest);
      assert (l.content + a.output) + Concatenated(rest) == l.content + Concatenated(attempts);
      assert l.content + a.output[..a.taken] <= l.content + Concatenated(attempts);
    }
  }

  // ---------------------------------------------------------------- which writes the file holds

  function TotalSize(attempts: seq<Attempt>): nat {
    if attempts == [] then 0 else |attempts[0].output| + TotalSize(attempts[1..])
  }

  /** With `size` bytes in the file, the attempt fits under the limit. */
  predicate FitsIn(limit: nat, size: nat, a: Attempt) { limit == 0 || size + |a.output| <= limit }

  /** The first `k` attempts all fit, one after the other, and are taken whole. */
  ghost predicate Whole(limit: nat, size: nat, attempts: seq<Attempt>, k: nat)
    requires k <= |attempts|
  {
    forall j :: 0 <= j < k ==>
      FitsIn(limit, size + TotalSize(attempts[..j]), attempts[j]) && attempts[j].taken == |attempts[j].output|
  }

  /** ... and attempt `k`, if there is one, is the first that is not. */
  ghost predicate FirstRefused(limit: nat, size: nat, attempts: seq<Attempt>, k: nat)
    requires k <= |attempts|
  {
    && Whole(limit, size, attempts, k)
    && (k < |attempts| ==> !(FitsIn(limit, size + TotalSize(attempts[..k]), attempts[k])
                             && attempts[k].taken == |attempts[k].output|))
  }

  /** There is always exactly one such attempt, or the end of the list. */
  lemma FirstRefusedExists(limit: nat, size: nat, attempts: seq<Attempt>) returns (k: nat)
    ensures k <= |attempts| && FirstRefused(limit, size, attempts, k)
    ensures forall k' :: 0 <= k' <= |attempts| && FirstRefused(limit, size, attempts, k') ==> k' == k
  {
    k := 0;
    while k < |attempts| && FitsIn(limit, size + TotalSize(attempts[..k]), attempts[k])
          && attempts[k].taken == |attempts[k].output|
      invariant k <= |attempts| && Whole(limit, size, attempts, k)
    {
      k := k + 1;
    }
  }

  lemma TotalSizeFirst(attempts: seq<Attempt>, j: nat)
    requires 0 < j <= |attempts|
    ensures TotalSize(attempts[..j]) == |attempts[0].output| + TotalSize(attempts[1..][..j - 1])
  {
    assert attempts[..j][1..] == attempts[1..][..j - 1];
  }

  lemma WholeRest(limit: nat, size: nat, attempts: seq<Attempt>, k: nat)
    requires 0 < k <= |attempts| && FirstRefused(limit, size, attempts, k)
    ensures FirstRefused(limit, size + |attempts[0].output|, attempts[1..], k - 1)
    ensures FitsIn(limit, size, attempts[0]) && attempts[0].taken == |attempts[0].output|
  {
    var rest := attempts[1..];
    assert attempts[..0] == [] && TotalSize(attempts[..0]) == 0;
    forall j | 0 <= j <= k - 1
      ensures TotalSize(attempts[..j + 1]) == |attempts[0].output| + TotalSize(rest[..j])
      ensures j < |rest| ==> rest[j] == attempts[j + 1]
    {
      TotalSizeFirst(attempts, j + 1);
    }
  }

  /** One write: what is added to the file, whether it stays open, and the count. */
  lemma WriteExactly(l: Log, a: Attempt)
    requires Counted(l) && l.active && Possible(a) && Reasonable(a)
    ensures var (l', ok) := OnWrite(l, a);
            && l'.limit == l.limit && l'.active == ok
            && (ok <==> FitsIn(l.limit, |l.content|, a) && a.taken == |a.output|)
            && l'.content == l.content + (if FitsIn(l.limit, |l.content|, a) then a.output[..a.taken] else [])
            && l'.written == if ok then |l'.content| % SIZE_RANGE else l.written
  {
    WriteCounted(l, a);
    SizeCheckExact(l.limit, l.written, |a.output|);
    CountingWraps(|l.content|, |a.output|);
    if l.limit > 0 { SmallCount(|l.content|); }
    assert a.output[..|a.output|] == a.output;
    assert l.content + [] == l.content;
  }

  /** The first `k` attempts, then the part taken of attempt `k` exactly if it fitted. */
  function Kept(limit: nat, size: nat, attempts: seq<Attempt>, k: nat): Bytes
    requires k <= |attempts| && (k < |attempts| ==> Possible(attempts[k]))
  {
    Concatenated(attempts[..k]) +
    (if k < |attempts| && FitsIn(limit, size + TotalSize(attempts[..k]), attempts[k])
     then attempts[k].output[..attempts[k].taken] else [])
  }

  lemma KeptFirst(limit: nat, size: nat, attempts: seq<Attempt>, k: nat)
    requires 0 < k <= |attempts| && (k < |attempts| ==> Possible(attempts[k]))
    ensures Kept(limit, size, attempts, k) ==
              attempts[0].output + Kept(limit, size + |attempts[0].output|, attempts[1..], k - 1)
  {
    var a, rest := attempts[0], attempts[1..];
    TotalSizeFirst(attempts, k);
    assert attempts[..k][0] == a && attempts[..k][1..] == rest[..k - 1];
    assert Concatenated(attempts[..k]) == a.output + Concatenated(rest[..k - 1]);
    assert k < |attempts| ==> attempts[k] == rest[k - 1];
  }

  lemma RefusedAtOnce(l: Log, attempts: seq<Attempt>)
    requires Counted(l) && l.active && attempts != []
    requires forall i :: 0 <= i < |attempts| ==> Possible(attempts[i]) && Reasonable(attempts[i])
    requires FirstRefused(l.limit, |l.content|, attempts, 0)
    ensures var l' := Run(l, attempts);
            !l'.active && l'.content == l.content + Kept(l.limit, |l.content|, attempts, 0) && l'.written == l.written
  {
    var a := attempts[0];
    assert attempts[..0] == [] && TotalSize(attempts[..0]) == 0;
    WriteExactly(l, a);
    WriteCounted(l, a);
    RunsStayWithinLimit(OnWrite(l, a).0, attempts[1..]);
    assert [] + a.output[..a.taken] == a.output[..a.taken];
  }

  lemma TakenAtOnce(l: Log, attempts: seq<Attempt>, k: nat)
    requires Counted(l) && l.active && 0 < k <= |attempts| && Possible(attempts[0]) && Reasonable(attempts[0])
    requires FirstRefused(l.limit, |l.content|, attempts, k)
    ensures var l' := OnWrite(l, attempts[0]).0;
            && Counted(l') && l'.active && l'.limit == l.limit && l'.content == l.content + attempts[0].output
            && FirstRefused(l'.limit, |l'.content|, attempts[1..], k - 1)
  {
    var a := attempts[0];
    WholeRest(l.limit, |l.content|, attempts, k);
    WriteExactly(l, a);
    WriteCounted(l, a);
    assert a.output[..a.taken] == a.output;
  }

  lemma KeptAfterFirst(l: Log, attempts: seq<Attempt>, k: nat, end: Log)
    requires 0 < k <= |attempts| && (k < |attempts| ==> Possible(attempts[k]))
    requires var size := |l.content| + |attempts[0].output|;
             && end.content == (l.content + attempts[0].output) + Kept(l.limit, size, attempts[1..], k - 1)
             && end.written == (size + TotalSize(attempts[1..][..k - 1])) % SIZE_RANGE
    ensures end.content == l.content + Kept(l.limit, |l.content|, attempts, k)
    ensures end.written == (|l.content| + TotalSize(attempts[..k])) % SIZE_RANGE
  {
    var a, rest := attempts[0], attempts[1..];
    TotalSizeFirst(attempts, k);
    KeptFirst(l.limit, |l.content|, attempts, k);
    Associative(l.content, a.output, Kept(l.limit, |l.content| + |a.output|, rest, k - 1));
  }

  /** Over any writes to an active log the file gains the whole of every write before the first one
      that does not fit or is not taken whole, then the part taken of that one exactly if it fitted,
      and nothing after it; the log is active in the end exactly if there was no such write. */
  lemma {:induction false} FileHoldsWholeWrites(l: Log, attempts: seq<Attempt>, k: nat)
    requires Counted(l) && l.active && k <= |attempts|
    requires forall i :: 0 <= i < |attempts| ==> Possible(attempts[i]) && Reasonable(attempts[i])
    requires FirstRefused(l.limit, |l.content|, attempts, k)
    ensures var l' := Run(l, attempts);
            && (l'.active <==> k == |attempts|)
            && l'.content == l.content + Kept(l.limit, |l.content|, attempts, k)
            && l'.written == (|l.content| + TotalSize(attempts[..k])) % SIZE_RANGE
    decreases |attempts|
  {
    if k == 0 {
      assert attempts[..0] == [];
      if attempts != [] { RefusedAtOnce(l, attempts); } else { assert l.content + ([] + []) == l.content; }
    } else {
      var a, rest := attempts[0], attempts[1..];
      TakenAtOnce(l, attempts, k);
      FileHoldsWholeWrites(OnWrite(l, a).0, rest, k - 1);
      KeptAfterFirst(l, attempts, k, Run(l, attempts));
    }
  }

  class RtcEventLogOutputFile {
    const maxSizeBytes: nat
    var writtenBytes: nat
    var isOpen: bool
    ghost var content: Bytes

    ghost function State(): Log
      reads this
    {
      Log(maxSizeBytes, writtenBytes, isOpen, content)
    }

    constructor (maxSizeBytes: nat, fileOpen: bool)
      requires maxSizeBytes <= MAX_REASONABLE
      ensures State() == Log(maxSizeBytes, 0, fileOpen, []) && Counted(State())
    {
      this.maxSizeBytes, writtenBytes, isOpen, content := maxSizeBytes, 0, fileOpen, [];
    }

    /** The debug checks of Write are its preconditions. */
    method Write(a: Attempt) returns (ok: bool)
      requires Counted(State()) && isOpen && Possible(a) && Reasonable(a)
      modifies this
      ensures Counted(State())
      ensures (State(), ok) == OnWrite(old(State()), a)
      ensures ok <==> (maxSizeBytes == 0 || old(|content|) + |a.output| <= maxSizeBytes) && a.taken == |a.output|
      ensures ok <==> isOpen
      ensures content == old(content) +
                if maxSizeBytes == 0 || old(|content|) + |a.output| <= maxSizeBytes then a.output[..a.taken] else []
    {
      WriteCounted(State(), a);
      WriteExactly(State(), a);
      if maxSizeBytes == 0 || (writtenBytes + |a.output|) % SIZE_RANGE <= maxSizeBytes {
        content := content + a.output[..a.taken];
        if a.taken == |a.output| {
          assert a.output[..a.taken] == a.output;
          writtenBytes := (writtenBytes + |a.output|) % SIZE_RANGE;
          return true;
        }
      }
      isOpen := false;
      return false;
    }
  }
}
