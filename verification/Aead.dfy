/** The authenticated cipher seen from one session key, and the per-record nonces of
    section 5.3 of RFC 8446.

    The cipher is library code, so it is a parameter: any pair of functions. What a result
    needs of it is stated against the log of the records the honest peer sealed:
    `Correct` (logged records open) and `Authentic` (nothing else opens). */
module Aeads {
  import opened Prelude
  import opened Bytes

  const TAG_LEN: nat := 16
  const NONCE_LEN: nat := 12

  /** A nonce, or the IV nonces are made from. */
  type Nonce = n: seq<Byte> | |n| == NONCE_LEN witness seq(NONCE_LEN, _ => 0)

  datatype Aead = Aead(
    seal: (seq<Byte>, seq<Byte>, seq<Byte>) -> seq<Byte>,         // nonce, aad, plaintext
    open: (seq<Byte>, seq<Byte>, seq<Byte>) -> Option<seq<Byte>>  // nonce, aad, ciphertext
  )

  datatype Record = Record(nonce: seq<Byte>, aad: seq<Byte>, plaintext: seq<Byte>)

  /** A ciphertext is its plaintext plus a 16-octet tag. */
  ghost predicate Tagged(a: Aead) {
    forall n, d, p :: |a.seal(n, d, p)| == |p| + TAG_LEN
  }

  /** Every logged record opens to its plaintext. */
  ghost predicate Correct(a: Aead, log: seq<Record>) {
    forall i :: 0 <= i < |log| ==>
      a.open(log[i].nonce, log[i].aad, a.seal(log[i].nonce, log[i].aad, log[i].plaintext)) == Some(log[i].plaintext)
  }

  ghost predicate Logged(log: seq<Record>, r: Record) {
    exists i :: 0 <= i < |log| && log[i] == r
  }

  /** Whatever opens is the sealing of a logged record, under that record's nonce and data. */
  ghost predicate Authentic(a: Aead, log: seq<Record>) {
    forall n, d, c {:trigger a.open(n, d, c)} :: a.open(n, d, c).Some? ==>
      && Logged(log, Record(n, d, a.open(n, d, c).value))
      && c == a.seal(n, d, a.open(n, d, c).value)
  }

  /** A cipher that hides nothing but honours the log: it meets all three assumptions. */
  function LogAead(log: seq<Record>): Aead {
    Aead(
      (n, d, p) => p + seq(TAG_LEN, _ => 0 as Byte),
      (n, d, c) =>
        if |c| >= TAG_LEN && c == c[..|c| - TAG_LEN] + seq(TAG_LEN, _ => 0 as Byte)
           && Record(n, d, c[..|c| - TAG_LEN]) in log
        then Some(c[..|c| - TAG_LEN]) else None
    )
  }

  lemma {:induction false} AssumptionsAreMet(log: seq<Record>)
    ensures Tagged(LogAead(log))
    ensures Correct(LogAead(log), log)
    ensures Authentic(LogAead(log), log)
  {
    var a := LogAead(log);
    forall i | 0 <= i < |log|
      ensures a.open(log[i].nonce, log[i].aad, a.seal(log[i].nonce, log[i].aad, log[i].plaintext)) == Some(log[i].plaintext)
    {
      var c := a.seal(log[i].nonce, log[i].aad, log[i].plaintext);
      assert c[..|c| - TAG_LEN] == log[i].plaintext;
      assert log[i] == Record(log[i].nonce, log[i].aad, log[i].plaintext);
    }
  }

  /** IV with the 64-bit counter folded into its last eight octets. */
  function NonceOf(iv: Nonce, counter: nat): Nonce
  {
    iv[..4] + Xor(iv[4..], ToBe(counter, |iv| - 4))
  }

  /** The counter folded into a nonce. */
  function CounterOf(nonce: Nonce, iv: Nonce): nat
  {
    FromBe(Xor(nonce[4..], iv[4..]))
  }

  lemma {:induction false} CounterOfNonce(iv: Nonce, counter: nat)
    requires counter < U64_LIMIT
    ensures CounterOf(NonceOf(iv, counter), iv) == counter
  {
    assert NonceOf(iv, counter)[4..] == Xor(iv[4..], ToBe(counter, 8));
    XorCancels(iv[4..], ToBe(counter, 8));
    Pow256Widths();
    FromBeToBe(counter, 8);
  }

  /** Nonces determine their counter: under one key they repeat only if a counter does. */
  lemma {:induction false} NoncesDistinct(iv: Nonce, a: nat, b: nat)
    requires a < U64_LIMIT && b < U64_LIMIT
    ensures NonceOf(iv, a) == NonceOf(iv, b) <==> a == b
  {
    CounterOfNonce(iv, a);
    CounterOfNonce(iv, b);
  }

  /** The construction of section 5.3 of RFC 8446: the counter, most significant octet first, is
      folded into the last eight octets of the IV. */
  lemma {:induction false} NonceOctets(iv: Nonce, counter: nat, i: nat)
    requires i < NONCE_LEN
    ensures NonceOf(iv, counter)[i] == if i < 4 then iv[i] else XorByte(iv[i], U64Be(counter)[i - 4])
  {
    hide XorByte, ToBe;
  }
}
