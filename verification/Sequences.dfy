/** Ordered subsequences, used to say that items may be dropped but never reordered or repeated. */
module Sequences {

  lemma Associative<T>(a: seq<T>, b: seq<T>, c: seq<T>)
    ensures a + (b + c) == (a + b) + c
  {
  }

  lemma Nothing<T>(a: seq<T>)
    ensures a + [] == a && [] + a == a
  {
  }

  lemma SameRest<T>(a: seq<T>, b: seq<T>, c: seq<T>)
    requires a + b == a + c
    ensures b == c
  {
    assert (a + b)[|a|..] == b && (a + c)[|a|..] == c;
  }

  ghost predicate Subseq<T>(a: seq<T>, b: seq<T>)
    decreases |b|
  {
    a == [] ||
    (b != [] &&
     ((a[|a| - 1] == b[|b| - 1] && Subseq(a[..|a| - 1], b[..|b| - 1])) || Subseq(a, b[..|b| - 1])))
  }

  lemma SubseqPush<T>(a: seq<T>, b: seq<T>, x: T)
    requires Subseq(a, b)
    ensures Subseq(a + [x], b + [x]) && Subseq(a, b + [x])
  {
    assert (a + [x])[..|a|] == a && (b + [x])[..|b|] == b;
  }

  lemma {:induction false} SubseqDropLast<T>(a: seq<T>, b: seq<T>)
    requires a != [] && Subseq(a, b)
    ensures Subseq(a[..|a| - 1], b)
    decreases |b|
  {
    var b' := b[..|b| - 1];
    if !(a[|a| - 1] == b[|b| - 1] && Subseq(a[..|a| - 1], b')) {
      SubseqDropLast(a, b');
    }
  }

  lemma {:induction false} SubseqPrefix<T>(a: seq<T>, n: nat, b: seq<T>)
    requires n <= |a| && Subseq(a, b)
    ensures Subseq(a[..n], b)
    decreases |a|
  {
    if n < |a| {
      SubseqDropLast(a, b);
      SubseqPrefix(a[..|a| - 1], n, b);
      assert a[..|a| - 1][..n] == a[..n];
    } else {
      assert a[..n] == a;
    }
  }

  lemma {:induction false} SubseqTransitive<T>(a: seq<T>, b: seq<T>, c: seq<T>)
    requires Subseq(a, b) && Subseq(b, c)
    ensures Subseq(a, c)
    decreases |c|
  {
    if a != [] {
      var c' := c[..|c| - 1];
      if Subseq(b, c') {
        SubseqTransitive(a, b, c');
      } else {
        var b' := b[..|b| - 1];
        if a[|a| - 1] == b[|b| - 1] && Subseq(a[..|a| - 1], b') {
          SubseqTransitive(a[..|a| - 1], b', c');
        } else {
          SubseqTransitive(a, b', c');
        }
      }
    }
  }

  lemma {:induction false} SubseqConcat<T>(a: seq<T>, b: seq<T>, c: seq<T>)
    requires Subseq(a, b)
    ensures Subseq(a + c, b + c)
    decreases |c|
  {
    if c == [] {
      Nothing(a);
      Nothing(b);
    } else {
      var c', x := c[..|c| - 1], c[|c| - 1];
      SubseqConcat(a, b, c');
      SubseqPush(a + c', b + c', x);
      assert c == c' + [x];
      Associative(a, c', [x]);
      Associative(b, c', [x]);
    }
  }
}
