/** The sealed envelope of AesContext: a 32-byte tag followed by the padded plaintext encrypted
    block by block, and the socket adapter that sends and receives it. */
module Envelopes {
  import opened Common

  const BLOCK := 16
  const TAG := 32

  /** The block cipher and the MAC under one key.  Their internals are not modelled: all that is
      used is that the cipher is a permutation of 16-byte blocks and the tag has 32 bytes. */
  datatype Crypto = Crypto(encrypt: Bytes -> Bytes, decrypt: Bytes -> Bytes, mac: Bytes -> Bytes)

  ghost predicate OnBlocks(f: Bytes -> Bytes) {
    forall b: Bytes :: |b| == BLOCK ==> |f(b)| == BLOCK
  }

  ghost predicate Undoes(f: Bytes -> Bytes, g: Bytes -> Bytes) {
    forall b: Bytes :: |b| == BLOCK ==> f(g(b)) == b
  }

  ghost predicate Sound(c: Crypto) {
    && OnBlocks(c.encrypt) && OnBlocks(c.decrypt)
    && Undoes(c.decrypt, c.encrypt) && Undoes(c.encrypt, c.decrypt)
    && forall m: Bytes :: |c.mac(m)| == TAG
  }

  // ---------------------------------------------------------------- electronic codebook

  function Ecb(f: Bytes -> Bytes, data: Bytes): Bytes
    requires |data| % BLOCK == 0
  {
    if data == [] then [] else f(data[..BLOCK]) + Ecb(f, data[BLOCK..])
  }

  lemma {:induction false} EcbLength(f: Bytes -> Bytes, data: Bytes)
    requires OnBlocks(f) && |data| % BLOCK == 0
    ensures |Ecb(f, data)| == |data|
  {
    if data != [] { EcbLength(f, data[BLOCK..]); }
  }

  lemma {:induction false} EcbConcat(f: Bytes -> Bytes, a: Bytes, b: Bytes)
    requires |a| % BLOCK == 0 && |b| % BLOCK == 0
    ensures |a + b| % BLOCK == 0 && Ecb(f, a + b) == Ecb(f, a) + Ecb(f, b)
    decreases |a|
  {
    if a == [] {
      assert a + b == b;
    } else {
      EcbConcat(f, a[BLOCK..], b);
      assert (a + b)[..BLOCK] == a[..BLOCK] && (a + b)[BLOCK..] == a[BLOCK..] + b;
    }
  }

  lemma EcbCons(f: Bytes -> Bytes, block: Bytes, rest: Bytes)
    requires |block| == BLOCK && |rest| % BLOCK == 0
    ensures |block + rest| % BLOCK == 0 && Ecb(f, block + rest) == f(block) + Ecb(f, rest)
  {
    assert (block + rest)[..BLOCK] == block && (block + rest)[BLOCK..] == rest;
  }

  lemma {:induction false} EcbUndone(f: Bytes -> Bytes, g: Bytes -> Bytes, data: Bytes)
    requires OnBlocks(g) && Undoes(f, g) && |data| % BLOCK == 0
    ensures |Ecb(g, data)| == |data| && Ecb(f, Ecb(g, data)) == data
    decreases |data|
  {
    if data != [] {
      var first, rest := data[..BLOCK], data[BLOCK..];
      EcbUndone(f, g, rest);
      EcbCons(f, g(first), Ecb(g, rest));
      assert data == first + rest;
    }
  }

  lemma EcbOne(f: Bytes -> Bytes, block: Bytes)
    requires |block| == BLOCK
    ensures Ecb(f, block) == f(block)
  {
    assert block[..BLOCK] == block && block[BLOCK..] == [];
    assert f(block) + [] == f(block);
  }

  lemma EcbSnoc(f: Bytes -> Bytes, front: Bytes, last: Bytes)
    requires |front| % BLOCK == 0 && |last| == BLOCK
    ensures |front + last| % BLOCK == 0 && Ecb(f, front + last) == Ecb(f, front) + f(last)
  {
    EcbConcat(f, front, last);
    EcbOne(f, last);
  }

  /** Each block is enciphered on its own and in its place. */
  lemma {:induction false} EcbBlock(f: Bytes -> Bytes, data: Bytes, i: nat)
    requires OnBlocks(f) && |data| % BLOCK == 0 && BLOCK * (i + 1) <= |data|
    ensures |Ecb(f, data)| == |data|
    ensures Ecb(f, data)[BLOCK * i..BLOCK * (i + 1)] == f(data[BLOCK * i..BLOCK * (i + 1)])
    decreases |data|
  {
    EcbLength(f, data);
    var first, rest := data[..BLOCK], data[BLOCK..];
    assert data == first + rest;
    if i > 0 {
      EcbBlock(f, rest, i - 1);
      assert rest[BLOCK * (i - 1)..BLOCK * i] == data[BLOCK * i..BLOCK * (i + 1)];
      assert (f(first) + Ecb(f, rest))[BLOCK * i..BLOCK * (i + 1)] == Ecb(f, rest)[BLOCK * (i - 1)..BLOCK * i];
    } else {
      assert (f(first) + Ecb(f, rest))[..BLOCK] == f(first);
    }
  }

  // ---------------------------------------------------------------- PKCS#7 padding (RFC 5652, section 6.3)

  function PadLength(n: nat): (k: nat)
    ensures 1 <= k <= BLOCK && (n + k) % BLOCK == 0
  {
    BLOCK - n % BLOCK
  }

  function Repeated(k: nat): (r: Bytes)
    requires k <= BLOCK
    ensures |r| == k && forall i :: 0 <= i < k ==> r[i] as int == k
  {
    seq(k, _ => k as byte)
  }

  function Pad(p: Bytes): (x: Bytes)
    ensures |x| % BLOCK == 0 && |x| == BLOCK * (|p| / BLOCK + 1)
  {
    p + Repeated(PadLength(|p|))
  }

  function Unpad(x: Bytes): Option<Bytes>
    requires |x| >= BLOCK
  {
    var k := x[|x| - 1] as nat;
    if k == 0 || k > BLOCK then None
    else if forall i :: |x| - k <= i < |x| ==> x[i] as int == k then Some(x[..|x| - k])
    else None
  }

  /** On whole blocks, unpadding succeeds exactly on padded data and gives the original. */
  lemma UnpadExact(x: Bytes, p: Bytes)
    requires |x| >= BLOCK && |x| % BLOCK == 0
    ensures Unpad(x) == Some(p) <==> x == Pad(p)
  {
    if Unpad(x) == Some(p) {
      var k := x[|x| - 1] as nat;
      assert k == PadLength(|p|);
      assert x == p + Repeated(k);
    }
    if x == Pad(p) {
      assert x[|x| - 1] as nat == PadLength(|p|);
      assert x[..|p|] == p;
    }
  }

  // ---------------------------------------------------------------- EVP update and final

  function WholeBlocks(n: nat): nat { BLOCK * (n / BLOCK) }

  /** EVP_EncryptUpdate: the whole blocks of the input; the rest stays in the context. */
  function EncryptUpdate(c: Crypto, p: Bytes): Bytes { Ecb(c.encrypt, p[..WholeBlocks(|p|)]) }

  /** EVP_EncryptFinal_ex: the padded rest. */
  function EncryptFinal(c: Crypto, p: Bytes): Bytes { Ecb(c.encrypt, Pad(p[WholeBlocks(|p|)..])) }

  /** How much EVP_DecryptUpdate releases: with padding on it holds back a last whole block. */
  function Released(n: nat): (r: nat)
    ensures r <= n && r % BLOCK == 0
  {
    if n > 0 && n % BLOCK == 0 then n - BLOCK else WholeBlocks(n)
  }

  function DecryptUpdate(c: Crypto, e: Bytes): Bytes { Ecb(c.decrypt, e[..Released(|e|)]) }

  /** EVP_DecryptFinal_ex: an error unless exactly one whole block was held back. */
  function DecryptFinal(c: Crypto, e: Bytes): Option<Bytes>
    requires OnBlocks(c.decrypt)
  {
    var held := e[Released(|e|)..];
    if |held| != BLOCK then None else Unpad(c.decrypt(held))
  }

  lemma EncryptedLength(c: Crypto, p: Bytes)
    requires OnBlocks(c.encrypt)
    ensures |EncryptUpdate(c, p)| == BLOCK * (|p| / BLOCK) && |EncryptFinal(c, p)| == BLOCK
    ensures |EncryptUpdate(c, p)| + |EncryptFinal(c, p)| == BLOCK * (|p| / BLOCK + 1)
  {
    EcbLength(c.encrypt, p[..WholeBlocks(|p|)]);
    EcbLength(c.encrypt, Pad(p));
    EncryptInOneGo(c, p);
  }

  lemma EncryptInOneGo(c: Crypto, p: Bytes)
    ensures EncryptUpdate(c, p) + EncryptFinal(c, p) == Ecb(c.encrypt, Pad(p))
  {
    var n := WholeBlocks(|p|);
    EcbConcat(c.encrypt, p[..n], Pad(p[n..]));
    assert p[..n] + Pad(p[n..]) == Pad(p);
  }

  // ---------------------------------------------------------------- seal and open

  function Sealed(c: Crypto, p: Bytes): Bytes { c.mac(p) + Ecb(c.encrypt, Pad(p)) }

  function Opened(c: Crypto, e: Bytes): Option<Bytes>
    requires OnBlocks(c.decrypt)
  {
    if |e| < TAG then None
    else
      match DecryptFinal(c, e[TAG..])
      case None => None
      case Some(last) => Some(DecryptUpdate(c, e[TAG..]) + last)
  }

  function BufferSize(n: nat): nat { n + TAG + 2 * BLOCK }

  lemma SealedSize(c: Crypto, p: Bytes)
    requires Sound(c)
    ensures |Sealed(c, p)| == TAG + BLOCK * (|p| / BLOCK + 1)
    ensures BufferSize(|p|) == |Sealed(c, p)| + BLOCK + |p| % BLOCK
  {
    EcbLength(c.encrypt, Pad(p));
  }

  lemma LastBlockHeld(n: nat)
    requires n % BLOCK == 0
    ensures Released(n + BLOCK) == n
  {
  }

  lemma SplitAgain(front: Bytes, last: Bytes)
    ensures (front + last)[..|front|] == front && (front + last)[|front|..] == last
  {
  }

  lemma DecryptSplit(c: Crypto, front: Bytes, last: Bytes)
    requires OnBlocks(c.decrypt) && |front| % BLOCK == 0 && |last| == BLOCK
    ensures DecryptUpdate(c, front + last) == Ecb(c.decrypt, front)
    ensures DecryptFinal(c, front + last) == Unpad(c.decrypt(last))
  {
    LastBlockHeld(|front|);
    SplitAgain(front, last);
    assert |front + last| == |front| + BLOCK;
  }

  lemma DecryptPieces(c: Crypto, front: Bytes, last: Bytes)
    requires OnBlocks(c.decrypt) && |front| % BLOCK == 0 && |last| == BLOCK
    ensures |front + last| % BLOCK == 0 && |Ecb(c.decrypt, front + last)| == |front + last|
    ensures Unpad(Ecb(c.decrypt, front + last)) ==
              match DecryptFinal(c, front + last)
              case None => None
              case Some(p) => Some(DecryptUpdate(c, front + last) + p)
  {
    EcbLength(c.decrypt, front);
    DecryptSplit(c, front, last);
    EcbSnoc(c.decrypt, front, last);
    UnpadOfLastBlock(Ecb(c.decrypt, front), c.decrypt(last));
  }

  lemma DecryptInOneGo(c: Crypto, e: Bytes)
    requires OnBlocks(c.decrypt) && |e| >= BLOCK && |e| % BLOCK == 0
    ensures |Ecb(c.decrypt, e)| == |e|
    ensures Unpad(Ecb(c.decrypt, e)) ==
              match DecryptFinal(c, e)
              case None => None
              case Some(last) => Some(DecryptUpdate(c, e) + last)
  {
    var n := |e| - BLOCK;
    assert e == e[..n] + e[n..];
    DecryptPieces(c, e[..n], e[n..]);
  }

  lemma UnpadOfLastBlock(front: Bytes, last: Bytes)
    requires |last| == BLOCK
    ensures Unpad(front + last) ==
              match Unpad(last)
              case None => None
              case Some(p) => Some(front + p)
  {
    var x := front + last;
    var k := last[BLOCK - 1] as nat;
    assert x[|x| - 1] as nat == k;
    if 0 < k <= BLOCK {
      assert (forall i :: |x| - k <= i < |x| ==> x[i] as int == k)
          <==> (forall i :: BLOCK - k <= i < BLOCK ==> last[i] as int == k) by {
        assert forall i :: BLOCK - k <= i < BLOCK ==> last[i] == x[|front| + i];
        assert forall i :: |x| - k <= i < |x| ==> x[i] == last[i - |front|];
      }
      assert x[..|x| - k] == front + last[..BLOCK - k];
    }
  }

  /** Opening succeeds with `p` exactly on envelopes whose body is the encryption of padded `p`. */
  lemma OpenExact(c: Crypto, e: Bytes, p: Bytes)
    requires Sound(c)
    ensures Opened(c, e) == Some(p) <==> |e| >= TAG && e[TAG..] == Ecb(c.encrypt, Pad(p))
  {
    EcbLength(c.encrypt, Pad(p));
    if |e| >= TAG {
      var body := e[TAG..];
      if |body| >= BLOCK && |body| % BLOCK == 0 {
        DecryptInOneGo(c, body);
        UnpadExact(Ecb(c.decrypt, body), p);
        EcbUndone(c.encrypt, c.decrypt, body);
        EcbUndone(c.decrypt, c.encrypt, Pad(p));
      }
    }
  }

  /** Whatever was sealed opens to itself, for every length and every block permutation. */
  lemma OpenSealRoundTrip(c: Crypto, p: Bytes)
    requires Sound(c)
    ensures Opened(c, Sealed(c, p)) == Some(p)
  {
    OpenExact(c, Sealed(c, p), p);
    assert Sealed(c, p)[TAG..] == Ecb(c.encrypt, Pad(p));
  }

  /** What is opened is at least a tag and one byte of padding shorter than the envelope. */
  lemma OpenedShrinks(c: Crypto, e: Bytes)
    requires Sound(c) && Opened(c, e).Some?
    ensures |Opened(c, e).value| + TAG < |e|
  {
    var p := Opened(c, e).value;
    OpenExact(c, e, p);
    EcbLength(c.encrypt, Pad(p));
  }

  // ---------------------------------------------------------------- the tag that is not compared

  /** The code computes the tag of what it opened and compares it with nothing: any 32 bytes before
      a valid body open. */
  lemma AnyTagOpens(c: Crypto, tag: Bytes, p: Bytes)
    requires Sound(c) && |tag| == TAG
    ensures Opened(c, tag + Ecb(c.encrypt, Pad(p))) == Some(p)
  {
    OpenExact(c, tag + Ecb(c.encrypt, Pad(p)), p);
    assert (tag + Ecb(c.encrypt, Pad(p)))[TAG..] == Ecb(c.encrypt, Pad(p));
  }

  /** Open with the comparison it leaves out. */
  function OpenedChecked(c: Crypto, e: Bytes): Option<Bytes>
    requires OnBlocks(c.decrypt)
  {
    var p := Opened(c, e);
    if p.Some? && e[..TAG] == c.mac(p.value) then p else None
  }

  /** With the comparison an envelope opens to `p` exactly if it is the sealing of `p`. */
  lemma CheckedOpenExact(c: Crypto, e: Bytes, p: Bytes)
    requires Sound(c)
    ensures OpenedChecked(c, e) == Some(p) <==> e == Sealed(c, p)
  {
    OpenExact(c, e, p);
    if |e| >= TAG { assert e == e[..TAG] + e[TAG..]; }
    if e == Sealed(c, p) { assert e[..TAG] == c.mac(p) && e[TAG..] == Ecb(c.encrypt, Pad(p)); }
  }

  // ---------------------------------------------------------------- lengths as int, failing calls

  /** Which of the OpenSSL calls of one Seal or Open succeed. */
  datatype Calls = Calls(reset: bool, init: bool, mac: bool, update: bool, finish: bool) {
    predicate Ok() { reset && init && mac && update && finish }
  }

  const ALL_SUCCEED := Calls(true, true, true, true, true)

  const INT_RANGE := 0x8000_0000

  /** A size_t passed where OpenSSL takes an int. */
  function Narrowed(n: nat): (r: int)
    ensures r <= n && (n < INT_RANGE ==> r == n)
    ensures -INT_RANGE <= r < INT_RANGE && (n - r) % (2 * INT_RANGE) == 0
  {
    var m := n % (2 * INT_RANGE);
    if m < INT_RANGE then m else m - 2 * INT_RANGE
  }

  /** Seal with its length narrowed: the cipher refuses a negative length, and an int total that
      overflows is taken as a failure. */
  function SealOf(c: Crypto, calls: Calls, p: Bytes): Option<Bytes> {
    var n := Narrowed(|p|);
    if !calls.Ok() || n < 0 || TAG + BLOCK * (n / BLOCK + 1) >= INT_RANGE then None
    else Some(c.mac(p) + Ecb(c.encrypt, Pad(p[..n])))
  }

  function OpenOf(c: Crypto, calls: Calls, e: Bytes): Option<Bytes>
    requires OnBlocks(c.decrypt)
  {
    if |e| < TAG || !calls.Ok() then None
    else
      var n := Narrowed(|e| - TAG);
      if n < 0 then None else Opened(c, e[..TAG + n])
  }

  /** Seal in full: an error exactly if a call fails, the length is negative as an int or the envelope
      too long for one; else the tag of the whole plaintext before the encryption of as much of it as
      the int says. */
  lemma SealOfExactly(c: Crypto, calls: Calls, p: Bytes, e: Bytes)
    requires Sound(c)
    ensures SealOf(c, calls, p) == Some(e) <==>
              && calls.Ok() && 0 <= Narrowed(|p|) && |e| < INT_RANGE
              && |e| >= TAG && e[..TAG] == c.mac(p) && e[TAG..] == Ecb(c.encrypt, Pad(p[..Narrowed(|p|)]))
  {
    var n := Narrowed(|p|);
    if n >= 0 {
      var body := Ecb(c.encrypt, Pad(p[..n]));
      EcbLength(c.encrypt, Pad(p[..n]));
      assert (c.mac(p) + body)[..TAG] == c.mac(p) && (c.mac(p) + body)[TAG..] == body;
      if |e| >= TAG { assert e == e[..TAG] + e[TAG..]; }
    }
  }

  /** Below the bound nothing is cut off: it is the sealed envelope. */
  lemma ShortSeals(c: Crypto, p: Bytes)
    requires Sound(c) && |p| < INT_RANGE - TAG - BLOCK
    ensures SealOf(c, ALL_SUCCEED, p) == Some(Sealed(c, p))
  {
    assert p[..|p|] == p;
  }

  /** Open in full: success with `p` exactly if all calls succeed and as much of the body as the int
      says is the encryption of padded `p`. */
  lemma OpenOfExactly(c: Crypto, calls: Calls, e: Bytes, p: Bytes)
    requires Sound(c)
    ensures OpenOf(c, calls, e) == Some(p) <==>
              && calls.Ok() && |e| >= TAG && 0 <= Narrowed(|e| - TAG)
              && e[TAG..TAG + Narrowed(|e| - TAG)] == Ecb(c.encrypt, Pad(p))
  {
    if |e| >= TAG && 0 <= Narrowed(|e| - TAG) {
      var cut := e[..TAG + Narrowed(|e| - TAG)];
      OpenExact(c, cut, p);
      assert cut[TAG..] == e[TAG..TAG + Narrowed(|e| - TAG)];
    }
  }

  lemma ShortOpens(c: Crypto, calls: Calls, e: Bytes)
    requires OnBlocks(c.decrypt) && |e| < TAG + INT_RANGE
    ensures OpenOf(c, calls, e) == if calls.Ok() then Opened(c, e) else None
  {
    if |e| >= TAG { assert e[..TAG + (|e| - TAG)] == e; }
  }

  lemma OpensToNarrowed(c: Crypto, p: Bytes)
    requires Sound(c) && SealOf(c, ALL_SUCCEED, p).Some?
    ensures OpenOf(c, ALL_SUCCEED, SealOf(c, ALL_SUCCEED, p).value) == Some(p[..Narrowed(|p|)])
  {
    var q := p[..Narrowed(|p|)];
    EcbLength(c.encrypt, Pad(q));
    AnyTagOpens(c, c.mac(p), q);
    ShortOpens(c, ALL_SUCCEED, c.mac(p) + Ecb(c.encrypt, Pad(q)));
  }

  /** Open gives back what Seal was given exactly for plaintexts shorter than 2^31 - 48 bytes. */
  lemma RoundTripExactly(c: Crypto, p: Bytes)
    requires Sound(c)
    ensures var s := SealOf(c, ALL_SUCCEED, p);
            s.Some? && OpenOf(c, ALL_SUCCEED, s.value) == Some(p) <==> |p| < INT_RANGE - TAG - BLOCK
  {
    if SealOf(c, ALL_SUCCEED, p).Some? {
      OpensToNarrowed(c, p);
      assert p[..|p|] == p;
      if |p| >= INT_RANGE - TAG - BLOCK { assert Narrowed(|p|) < |p|; }
    }
  }

  /** What Seal writes one piece after the other: all of it fits the buffer. */
  lemma PiecesSealed(c: Crypto, calls: Calls, p: Bytes, n: nat)
    requires Sound(c) && calls.Ok() && n == Narrowed(|p|)
    ensures var tag, update, last := c.mac(p), EncryptUpdate(c, p[..n]), EncryptFinal(c, p[..n]);
            && TAG + |update| + |last| <= BufferSize(|p|)
            && SealOf(c, calls, p) == if TAG + |update| + |last| >= INT_RANGE then None else Some((tag + update) + last)
  {
    EncryptInOneGo(c, p[..n]);
    EncryptedLength(c, p[..n]);
    var update, last := EncryptUpdate(c, p[..n]), EncryptFinal(c, p[..n]);
    assert (c.mac(p) + update) + last == c.mac(p) + (update + last);
  }

  lemma PiecesOpened(c: Crypto, calls: Calls, e: Bytes, n: nat)
    requires Sound(c) && |e| >= TAG && n == Narrowed(|e| - TAG)
    ensures var update, last := DecryptUpdate(c, e[TAG..TAG + n]), DecryptFinal(c, e[TAG..TAG + n]);
            && OpenOf(c, calls, e) == (if calls.Ok() && last.Some? then Some(update + last.value) else None)
            && (last.Some? ==> |update| + |last.value| < |e|)
  {
    assert e[..TAG + n][TAG..] == e[TAG..TAG + n];
    if Opened(c, e[..TAG + n]).Some? { OpenedShrinks(c, e[..TAG + n]); }
  }

  lemma UpdateFits(c: Crypto, input: Bytes)
    requires Sound(c)
    ensures |EncryptUpdate(c, input)| <= |input| && |DecryptUpdate(c, input)| <= |input|
  {
    EcbLength(c.encrypt, input[..WholeBlocks(|input|)]);
    EcbLength(c.decrypt, input[..Released(|input|)]);
  }

  // ---------------------------------------------------------------- the classes

  /** std::vector::resize. */
  function Resized(s: Bytes, n: nat): (r: Bytes)
    ensures |r| == n
  {
    if n <= |s| then s[..n] else s + seq(n - |s|, _ => 0)
  }

  /** A write through a pointer into a buffer; its precondition is that the write stays inside. */
  function Written(s: Bytes, at: nat, data: Bytes): (r: Bytes)
    requires at + |data| <= |s|
    ensures |r| == |s| && r[at..at + |data|] == data && r[..at] == s[..at]
  {
    s[..at] + data + s[at + |data|..]
  }

  lemma WriteExtends(s: Bytes, done: Bytes, data: Bytes)
    requires done <= s && |done| + |data| <= |s|
    ensures done + data <= Written(s, |done|, data)
  {
    assert Written(s, |done|, data)[..|done| + |data|] == done + data;
  }

  class AesContext {
    const crypto: Crypto
    var outputBuffer: Bytes

    constructor (crypto: Crypto)
      ensures this.crypto == crypto && outputBuffer == []
    {
      this.crypto, outputBuffer := crypto, [];
    }

    /** The view returned is a prefix of the output buffer; no write leaves the buffer. */
    method Seal(plaintext: Bytes, calls: Calls) returns (view: Option<Bytes>)
      requires Sound(crypto)
      modifies this
      ensures view == SealOf(crypto, calls, plaintext)
      ensures view.Some? ==> |outputBuffer| == |plaintext| + 64 && view.value <= outputBuffer
    {
      if !calls.reset || !calls.init {
        return None;
      }
      outputBuffer := Resized(outputBuffer, BufferSize(|plaintext|));
      if !calls.mac {
        return None;
      }
      var tag := crypto.mac(plaintext);
      WriteExtends(outputBuffer, [], tag);
      outputBuffer := Written(outputBuffer, 0, tag);
      assert [] + tag == tag;
      var n := Narrowed(|plaintext|);
      if !calls.update || n < 0 {
        return None;
      }
      var update, last := EncryptUpdate(crypto, plaintext[..n]), EncryptFinal(crypto, plaintext[..n]);
      UpdateFits(crypto, plaintext[..n]);
      WriteExtends(outputBuffer, tag, update);
      outputBuffer := Written(outputBuffer, TAG, update);
      if !calls.finish {
        return None;
      }
      PiecesSealed(crypto, calls, plaintext, n);
      WriteExtends(outputBuffer, tag + update, last);
      outputBuffer := Written(outputBuffer, TAG + |update|, last);
      if TAG + |update| + |last| >= INT_RANGE {
        return None;
      }
      view := Some(outputBuffer[..TAG + |update| + |last|]);
    }

    method Open(envelope: Bytes, calls: Calls) returns (plaintext: Option<Bytes>)
      requires Sound(crypto)
      modifies this
      ensures plaintext == OpenOf(crypto, calls, envelope)
      ensures plaintext.Some? ==> outputBuffer == plaintext.value
    {
      if |envelope| < TAG || !calls.reset || !calls.init {
        return None;
      }
      outputBuffer := Resized(outputBuffer, |envelope|);
      var n := Narrowed(|envelope| - TAG);
      if !calls.update || n < 0 {
        return None;
      }
      var update := DecryptUpdate(crypto, envelope[TAG..TAG + n]);
      UpdateFits(crypto, envelope[TAG..TAG + n]);
      WriteExtends(outputBuffer, [], update);
      outputBuffer := Written(outputBuffer, 0, update);
      assert [] + update == update;
      var last := DecryptFinal(crypto, envelope[TAG..TAG + n]);
      if !calls.finish || last == None {
        return None;
      }
      PiecesOpened(crypto, calls, envelope, n);
      WriteExtends(outputBuffer, update, last.value);
      outputBuffer := Written(outputBuffer, |update|, last.value);
      outputBuffer := Resized(outputBuffer, |update| + |last.value|);
      if !calls.mac {
        return None;
      }
      return Some(outputBuffer);
    }
  }

  method CopyInto(pv: array<byte>, data: Bytes)
    requires |data| <= pv.Length
    modifies pv
    ensures pv[..] == data + old(pv[..])[|data|..]
  {
    for i := 0 to |data|
      invariant pv[..i] == data[..i]
      invariant pv[i..] == old(pv[..])[i..]
    {
      pv[i] := data[i];
    }
  }

  class OpenSSLAesAdapter {
    var encryptionKey: Option<AesContext>

    constructor ()
      ensures encryptionKey == None
    {
      encryptionKey := None;
    }

    /** What goes to the socket, if anything; `socket` is what sending it returns. */
    method Send(data: Bytes, calls: Calls, socket: int) returns (n: int, sent: Option<Bytes>)
      requires encryptionKey.Some? ==> Sound(encryptionKey.value.crypto)
      modifies if encryptionKey.Some? then {encryptionKey.value} else {}
      ensures sent == if encryptionKey.Some? then SealOf(encryptionKey.value.crypto, calls, data) else None
      ensures n == if sent.Some? then socket else 0
    {
      if encryptionKey == None {
        return 0, None;
      }
      sent := encryptionKey.value.Seal(data, calls);
      if sent == None {
        return 0, None;
      }
      n := socket;
    }

    /** `incoming` is what the socket delivers into the caller's buffer, its size being an int, or
        its error.  The bytes copied back are fewer than the bytes received, and nothing else in the
        buffer changes. */
    method Recv(pv: array<byte>, incoming: Option<Bytes>, calls: Calls) returns (n: int)
      requires encryptionKey.Some? ==> Sound(encryptionKey.value.crypto)
      requires incoming.Some? ==> |incoming.value| <= pv.Length && |incoming.value| < INT_RANGE
      modifies pv, if encryptionKey.Some? then {encryptionKey.value} else {}
      ensures incoming.None? ==> n == -1 && pv[..] == old(pv[..])
      ensures incoming.Some? ==>
                var received := incoming.value + old(pv[..])[|incoming.value|..];
                if encryptionKey.Some? && calls.Ok() && Opened(encryptionKey.value.crypto, incoming.value).Some? then
                  var p := Opened(encryptionKey.value.crypto, incoming.value).value;
                  n == |p| && n + TAG < |incoming.value| && pv[..] == p + received[n..]
                else n == 0 && pv[..] == received
    {
      if incoming == None {
        return -1;
      }
      CopyInto(pv, incoming.value);
      if encryptionKey == None {
        return 0;
      }
      var plaintext := encryptionKey.value.Open(incoming.value, calls);
      ShortOpens(encryptionKey.value.crypto, calls, incoming.value);
      if plaintext == None {
        return 0;
      }
      OpenedShrinks(encryptionKey.value.crypto, incoming.value);
      CopyInto(pv, plaintext.value);
      return |plaintext.value|;
    }
  }
}
