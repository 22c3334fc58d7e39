/**
 * crypto/mod.rs over an ideal AEAD: the nonce counter, and the [nonce][ciphertext][tag] layout.
 */
module Crypto {
  import opened Prelude
  import opened Wire

  const NONCE_LEN := 12
  const TAG_LEN := 16

  /** `seal` is `seal_in_place_separate_tag` with the tag appended; `open` is `open_in_place`. */
  datatype Aead = Aead(
    seal: (Bytes, string, Bytes) -> Bytes,
    open: (Bytes, string, Bytes) -> Option<Bytes>)

  /** The functional laws of AES-GCM: opening inverts sealing, and only a seal opens. */
  ghost predicate Lawful(a: Aead) {
    && (forall n, ad, p :: |a.seal(n, ad, p)| == |p| + TAG_LEN)
    && (forall n, ad, p :: a.open(n, ad, a.seal(n, ad, p)) == Some(p))
    && (forall n, ad, c :: a.open(n, ad, c).Some? ==> c == a.seal(n, ad, a.open(n, ad, c).value))
  }

  /** The laws are satisfiable. */
  lemma LawfulAeadExists() returns (a: Aead)
    ensures Lawful(a)
  {
    a := Aead(
      (n, ad, p) => p + Zeros(TAG_LEN),
      (n, ad, c: Bytes) =>
        if |c| >= TAG_LEN && c[|c| - TAG_LEN..] == Zeros(TAG_LEN) then Some(c[..|c| - TAG_LEN]) else None);
    forall n: Bytes, ad: string, c: Bytes | a.open(n, ad, c).Some?
      ensures c == a.seal(n, ad, a.open(n, ad, c).value)
    {
      assert c == c[..|c| - TAG_LEN] + c[|c| - TAG_LEN..];
    }
    forall n: Bytes, ad: string, p: Bytes
      ensures a.open(n, ad, a.seal(n, ad, p)) == Some(p)
    {
      var c := p + Zeros(TAG_LEN);
      assert c[|c| - TAG_LEN..] == Zeros(TAG_LEN);
      assert c[..|c| - TAG_LEN] == p;
    }
  }

  /** One call of the seal operation, as the sender's log records it. */
  datatype Sealed = Sealed(nonce: Bytes, aad: string, plaintext: Bytes)

  function Envelope(aead: Aead, s: Sealed): Bytes {
    s.nonce + aead.seal(s.nonce, s.aad, s.plaintext)
  }

  /** Shorter than nonce and tag is an error, as is a ciphertext that does not authenticate. */
  function Decrypt(aead: Aead, c: Bytes, aad: string): Option<Bytes> {
    if |c| < NONCE_LEN + TAG_LEN then None else aead.open(c[..NONCE_LEN], aad, c[NONCE_LEN..])
  }

  /** Decryption inverts the encryption layout, whatever the nonce. */
  lemma DecryptInvertsEnvelope(aead: Aead, s: Sealed)
    requires Lawful(aead)
    requires |s.nonce| == NONCE_LEN
    ensures Decrypt(aead, Envelope(aead, s), s.aad) == Some(s.plaintext)
  {
    var c := Envelope(aead, s);
    assert c[..NONCE_LEN] == s.nonce;
    assert c[NONCE_LEN..] == aead.seal(s.nonce, s.aad, s.plaintext);
  }

  /** Conversely, whatever decrypts is the envelope of what it decrypts to. */
  lemma OnlyEnvelopesDecrypt(aead: Aead, c: Bytes, aad: string)
    requires Lawful(aead)
    requires Decrypt(aead, c, aad).Some?
    ensures c == Envelope(aead, Sealed(c[..NONCE_LEN], aad, Decrypt(aead, c, aad).value))
  {
    var n, ct := c[..NONCE_LEN], c[NONCE_LEN..];
    assert aead.open(n, aad, ct).Some?;
    assert c == n + ct;
  }

  /** The counter fills the first eight bytes and the random source the last four. */
  ghost predicate NonceOf(nonce: Bytes, counter: nat) {
    |nonce| == NONCE_LEN && nonce[..8] == ToLe(counter % U64, 8)
  }

  ghost predicate NoncesFrom(log: seq<Sealed>, start: nat) {
    forall i :: 0 <= i < |log| ==> NonceOf(log[i].nonce, start + i)
  }

  lemma NonceDeterminesCounter(nonce: Bytes, counter: nat)
    requires NonceOf(nonce, counter)
    requires counter < U64
    ensures FromLe(nonce[..8]) == counter
  {
    Widths();
    assert counter % U64 == counter;
    LeRoundTrip(counter, 8);
  }

  /** As long as its 64-bit counter does not wrap, one context never uses a nonce twice, whatever the random bytes. */
  lemma NoncesDistinct(log: seq<Sealed>, start: nat, i: nat, j: nat)
    requires NoncesFrom(log, start)
    requires start + |log| <= U64
    requires i < j < |log|
    ensures log[i].nonce != log[j].nonce
  {
    NonceDeterminesCounter(log[i].nonce, start + i);
    NonceDeterminesCounter(log[j].nonce, start + j);
  }

  /**
   * Every context counts from zero. So two seals, of one context or of two contexts made from one key, use the same
   * nonce exactly when their numbers agree modulo 2^64 and they drew the same random bytes.
   */
  lemma NoncesCollideIff(a: seq<Sealed>, b: seq<Sealed>, i: nat, j: nat)
    requires NoncesFrom(a, 0) && NoncesFrom(b, 0)
    requires i < |a| && j < |b|
    ensures a[i].nonce == b[j].nonce <==> i % U64 == j % U64 && a[i].nonce[8..] == b[j].nonce[8..]
    ensures |a| <= U64 && |b| <= U64 ==> (a[i].nonce == b[j].nonce <==> i == j && a[i].nonce[8..] == b[j].nonce[8..])
  {
    hide ToLe;
    NonceDeterminesCounter(a[i].nonce, i % U64);
    NonceDeterminesCounter(b[j].nonce, j % U64);
    assert a[i].nonce == a[i].nonce[..8] + a[i].nonce[8..];
    assert b[j].nonce == b[j].nonce[..8] + b[j].nonce[8..];
  }

  /** What one call is asked to seal: associated data and plaintext. */
  type Message = (string, Bytes)

  /** The log of a context whose random source gave `random` every time. */
  function LogWith(messages: seq<Message>, random: Bytes): (log: seq<Sealed>)
    ensures |log| == |messages|
    ensures forall i: nat :: i < |log| ==> log[i] == Sealed(ToLe(i % U64, 8) + random, messages[i].0, messages[i].1)
  {
    seq(|messages|, (i: nat) requires i < |messages| => Sealed(ToLe(i % U64, 8) + random, messages[i].0, messages[i].1))
  }

  lemma LogWithCounts(messages: seq<Message>, random: Bytes)
    requires |random| == NONCE_LEN - 8
    ensures NoncesFrom(LogWith(messages, random), 0)
  {
    hide ToLe;
    var log := LogWith(messages, random);
    forall i: nat | i < |log|
      ensures NonceOf(log[i].nonce, i)
    {
      assert log[i].nonce[..8] == ToLe(i % U64, 8);
    }
  }

  /** Any two sequences of messages can be sealed in two contexts with the same nonce for each pair of the same number. */
  lemma ContextsCanCollide(xs: seq<Message>, ys: seq<Message>) returns (a: seq<Sealed>, b: seq<Sealed>)
    ensures NoncesFrom(a, 0) && NoncesFrom(b, 0) && |a| == |xs| && |b| == |ys|
    ensures forall i: nat :: i < |a| ==> (a[i].aad, a[i].plaintext) == xs[i]
    ensures forall i: nat :: i < |b| ==> (b[i].aad, b[i].plaintext) == ys[i]
    ensures forall i: nat :: i < |a| && i < |b| ==> a[i].nonce == b[i].nonce
  {
    hide LogWith;
    a, b := LogWith(xs, Zeros(4)), LogWith(ys, Zeros(4));
    LogWithCounts(xs, Zeros(4));
    LogWithCounts(ys, Zeros(4));
  }

  class CryptoContext {
    const aead: Aead
    var nonceCounter: nat
    /** Everything sealed so far. */
    ghost var log: seq<Sealed>

    ghost predicate Valid()
      reads this
    {
      nonceCounter == |log| && NoncesFrom(log, 0)
    }

    constructor FromKey(aead: Aead)
      ensures Valid() && this.aead == aead && log == []
    {
      this.aead := aead;
      nonceCounter := 0;
      log := [];
    }

    method NextNonce() returns (nonce: Bytes)
      modifies this`nonceCounter
      ensures NonceOf(nonce, old(nonceCounter))
      ensures nonceCounter == old(nonceCounter) + 1
    {
      var r0: byte, r1: byte, r2: byte, r3: byte := *, *, *, *;
      nonce := ToLe(nonceCounter % U64, 8) + [r0, r1, r2, r3];
      nonceCounter := nonceCounter + 1;
    }

    method Encrypt(plaintext: Bytes, aad: string) returns (buf: Bytes)
      requires Valid()
      modifies this
      ensures Valid()
      ensures |log| == |old(log)| + 1 && log[..|old(log)|] == old(log)
      ensures log[|old(log)|].aad == aad && log[|old(log)|].plaintext == plaintext
      ensures buf == Envelope(aead, log[|old(log)|])
    {
      var nonce := NextNonce();
      log := log + [Sealed(nonce, aad, plaintext)];
      buf := nonce + aead.seal(nonce, aad, plaintext);
    }

    /** Appends to a buffer instead of returning one. */
    method EncryptInto(plaintext: Bytes, aad: string, buf: Bytes) returns (out: Bytes)
      requires Valid()
      modifies this
      ensures Valid()
      ensures |log| == |old(log)| + 1 && log[..|old(log)|] == old(log)
      ensures log[|old(log)|].aad == aad && log[|old(log)|].plaintext == plaintext
      ensures out == buf + Envelope(aead, log[|old(log)|])
    {
      var nonce := NextNonce();
      log := log + [Sealed(nonce, aad, plaintext)];
      out := buf + nonce;
      out := out + aead.seal(nonce, aad, plaintext);
    }
  }
}
