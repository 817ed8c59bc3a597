/** Key derivation (RFC 4253, section 7.2): as many bytes of key material as asked for. */
module Kdf {
  import opened Arith
  import opened Bytes

  const DIGEST_MAX_LEN := 64

  /** The digest with its length, the exchange hash and the session identifier. */
  datatype Crypto = Crypto(hash: seq<byte> -> seq<byte>, digestLen: nat, secretHash: seq<byte>, sessionId: seq<byte>)

  /** All digests have the announced length, and so has the exchange hash, which is one of them. */
  ghost predicate Sized(c: Crypto) {
    |c.secretHash| == c.digestLen && forall x :: |c.hash(x)| == c.digestLen
  }

  /** The first digest: of the secret, the exchange hash, a letter and the session identifier. */
  function First(c: Crypto, key: seq<byte>, letter: byte): seq<byte> {
    c.hash(key + c.secretHash + [letter] + c.sessionId)
  }

  /** The digest that follows `before`: of the secret, the exchange hash and everything so far. */
  function Next(c: Crypto, key: seq<byte>, before: seq<byte>): seq<byte> {
    c.hash(key + c.secretHash + before)
  }

  /** The first `n` digests in a row. */
  function Blocks(c: Crypto, key: seq<byte>, letter: byte, n: nat): seq<byte> {
    if n == 0 then []
    else if n == 1 then First(c, key, letter)
    else var before := Blocks(c, key, letter, n - 1); before + Next(c, key, before)
  }

  lemma {:induction false} BlocksLength(c: Crypto, key: seq<byte>, letter: byte, n: nat)
    requires Sized(c)
    ensures |Blocks(c, key, letter, n)| == n * c.digestLen
  {
    if n > 1 {
      BlocksLength(c, key, letter, n - 1);
    }
  }

  lemma {:induction false} BlocksExtend(c: Crypto, key: seq<byte>, letter: byte, n: nat, m: nat)
    requires n <= m
    ensures Blocks(c, key, letter, n) <= Blocks(c, key, letter, m)
  {
    if n < m {
      BlocksExtend(c, key, letter, n, m - 1);
    }
  }

  /** `out` is the beginning of the unending row of digests. */
  ghost predicate KeyStream(c: Crypto, key: seq<byte>, letter: byte, out: seq<byte>) {
    exists n: nat :: out <= Blocks(c, key, letter, n)
  }

  /** Key material is determined by its length, and a shorter request yields the beginning of a longer one. */
  lemma ShorterIsPrefix(c: Crypto, key: seq<byte>, letter: byte, short: seq<byte>, long: seq<byte>)
    requires KeyStream(c, key, letter, short) && KeyStream(c, key, letter, long) && |short| <= |long|
    ensures short <= long
  {
    var n: nat :| short <= Blocks(c, key, letter, n);
    var m: nat :| long <= Blocks(c, key, letter, m);
    if n <= m {
      BlocksExtend(c, key, letter, n, m);
    } else {
      BlocksExtend(c, key, letter, m, n);
    }
  }

  // What is hashed

  /** The first digest is that of the secret, the exchange hash, the letter and the session identifier. */
  ghost predicate StartsWith(c: Crypto, key: seq<byte>, letter: byte, out: seq<byte>) {
    var digest := c.hash(key + c.secretHash + [letter] + c.sessionId);
    if |out| <= c.digestLen then out <= digest else digest == out[..c.digestLen]
  }

  /** Digest number `n`, counted from zero, is that of the secret, the exchange hash and all bytes before it. */
  ghost predicate ContinuesAt(c: Crypto, key: seq<byte>, out: seq<byte>, n: nat) {
    n > 0 && n * c.digestLen < |out| ==>
      var before, after := out[..n * c.digestLen], out[n * c.digestLen..];
      var digest := c.hash(key + c.secretHash + before);
      if |after| <= c.digestLen then after <= digest else digest == after[..c.digestLen]
  }

  lemma StreamBlocks(c: Crypto, key: seq<byte>, letter: byte, out: seq<byte>, n: nat)
    requires Sized(c) && KeyStream(c, key, letter, out)
    ensures out <= Blocks(c, key, letter, n) || Blocks(c, key, letter, n) <= out
  {
    var m: nat :| out <= Blocks(c, key, letter, m);
    if n <= m {
      BlocksExtend(c, key, letter, n, m);
    } else {
      BlocksExtend(c, key, letter, m, n);
    }
  }

  /** The row of digests is made as section 7.2 of RFC 4253 says. */
  lemma StreamStarts(c: Crypto, key: seq<byte>, letter: byte, out: seq<byte>)
    requires Sized(c) && KeyStream(c, key, letter, out)
    ensures StartsWith(c, key, letter, out)
  {
    StreamBlocks(c, key, letter, out, 1);
    assert Blocks(c, key, letter, 1) == First(c, key, letter);
  }

  lemma StreamContinues(c: Crypto, key: seq<byte>, letter: byte, out: seq<byte>, n: nat)
    requires Sized(c) && KeyStream(c, key, letter, out)
    ensures ContinuesAt(c, key, out, n)
  {
    var at := n * c.digestLen;
    if n > 0 && at < |out| {
      var before := Blocks(c, key, letter, n);
      BlocksLength(c, key, letter, n);
      BlocksLength(c, key, letter, n + 1);
      StreamBlocks(c, key, letter, out, n);
      StreamBlocks(c, key, letter, out, n + 1);
      assert out[..at] == before;
      var more := Blocks(c, key, letter, n + 1);
      assert more == before + Next(c, key, before);
      assert more[at..] == Next(c, key, before);
      BlockAfter(out, more, at);
    }
  }

  lemma MadeOfDigests(c: Crypto, key: seq<byte>, letter: byte, out: seq<byte>)
    requires Sized(c) && KeyStream(c, key, letter, out)
    ensures StartsWith(c, key, letter, out)
    ensures forall n :: ContinuesAt(c, key, out, n)
  {
    StreamStarts(c, key, letter, out);
    forall n: nat ensures ContinuesAt(c, key, out, n) {
      StreamContinues(c, key, letter, out, n);
    }
  }

  lemma BlockAfter(out: seq<byte>, more: seq<byte>, at: nat)
    requires at <= |out| && at <= |more| && (out <= more || more <= out)
    ensures if |out| <= |more| then out[at..] <= more[at..] else more[at..] == out[at..][..|more| - at]
  {
  }

  /** `done` has been written: `n` digests, or all `requested` bytes if `at` is not below that. */
  ghost predicate Derived(c: Crypto, key: seq<byte>, letter: byte, done: seq<byte>, n: nat, at: nat, requested: nat) {
    && n > 0 && KeyStream(c, key, letter, done)
    && if at < requested then |done| == at && done == Blocks(c, key, letter, n) else |done| == requested
  }

  lemma DerivedStart(c: Crypto, key: seq<byte>, letter: byte, n: nat, requested: nat)
    requires Sized(c) && n == 1
    ensures var len := if requested < c.digestLen then requested else c.digestLen;
      Derived(c, key, letter, First(c, key, letter)[..len], n, len, requested)
  {
    var len := if requested < c.digestLen then requested else c.digestLen;
    assert First(c, key, letter)[..len] <= Blocks(c, key, letter, n);
  }

  /** The part of the next digest that is wanted. */
  function Wanted(c: Crypto, at: nat, requested: nat): nat
    requires at <= requested
  {
    if requested < at + c.digestLen then requested - at else c.digestLen
  }

  lemma DerivedNext(c: Crypto, key: seq<byte>, letter: byte, done: seq<byte>, n: nat, at: nat, requested: nat)
    requires Sized(c) && at < requested && Derived(c, key, letter, done, n, at, requested)
    ensures var more := Next(c, key, done)[..Wanted(c, at, requested)];
      Derived(c, key, letter, done + more, n + 1, at + c.digestLen, requested)
  {
    assert Blocks(c, key, letter, n + 1) == done + Next(c, key, done);
    assert done + Next(c, key, done)[..Wanted(c, at, requested)] <= Blocks(c, key, letter, n + 1);
  }

  /** Copy `bytes` to `a[at..]`; nothing else changes. */
  method Append(a: array<byte>, at: nat, bytes: seq<byte>, ghost done: seq<byte>)
    requires at + |bytes| <= a.Length && a[..at] == done
    modifies a
    ensures a[..at + |bytes|] == done + bytes
    ensures forall i :: at + |bytes| <= i < a.Length ==> a[i] == old(a[i])
  {
    forall i | 0 <= i < |bytes| {
      a[at + i] := bytes[i];
    }
    assert forall i :: 0 <= i < at ==> a[i] == old(a[..at])[i];
  }

  /**
   * Fill the first `requestedLen` bytes of `output` and touch no other. A digest of length zero would never fill
   * anything: the loop needs a positive one.
   */
  method DeriveKey(c: Crypto, key: seq<byte>, keyType: int, output: array<byte>, requestedLen: nat) returns (rc: int)
    requires Sized(c) && (c.digestLen > 0 || requestedLen == 0) && requestedLen <= output.Length
    modifies output
    ensures rc == (if c.digestLen <= DIGEST_MAX_LEN then 0 else -1)
    ensures rc == 0 ==> KeyStream(c, key, keyType % 0x100, output[..requestedLen])
    ensures rc == 0 ==> StartsWith(c, key, keyType % 0x100, output[..requestedLen])
    ensures rc == 0 ==> forall n :: ContinuesAt(c, key, output[..requestedLen], n)
    ensures output[requestedLen..] == old(output[requestedLen..])
    ensures rc == -1 ==> output[..] == old(output[..])
  {
    var outputLen := c.digestLen;
    var letter: byte := keyType % 0x100;
    if DIGEST_MAX_LEN < c.digestLen {
      return -1;
    }
    var digest := First(c, key, letter);
    if requestedLen < outputLen {
      outputLen := requestedLen;
    }
    Append(output, 0, digest[..outputLen], []);
    ghost var n, done := 1, digest[..outputLen];
    assert [] + done == done;
    DerivedStart(c, key, letter, n, requestedLen);
    while requestedLen > outputLen
      invariant |done| <= requestedLen && output[..|done|] == done
      invariant forall i :: |done| <= i < output.Length ==> output[i] == old(output[i])
      invariant Derived(c, key, letter, done, n, outputLen, requestedLen)
    {
      digest := Next(c, key, output[..outputLen]);
      var take := if requestedLen < outputLen + c.digestLen then requestedLen - outputLen else c.digestLen;
      DerivedNext(c, key, letter, done, n, outputLen, requestedLen);
      Append(output, outputLen, digest[..take], done);
      done := done + digest[..take];
      n := n + 1;
      outputLen := outputLen + c.digestLen;
    }
    MadeOfDigests(c, key, letter, output[..requestedLen]);
    return 0;
  }
}
