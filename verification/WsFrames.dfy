/** The attested WebSocket frame codec (src/ws.rs): `nonce || AEAD(type || payload)`. */
module WsFrames {
  import opened Prelude
  import opened Bytes
  import opened Aeads

  const MSG_TEXT: Byte := 0x00
  const MSG_BINARY: Byte := 0x01
  const MIN_FRAME: nat := NONCE_LEN + 1 + TAG_LEN
  const MAX_WS_FRAME: nat := 16 * 1024 * 1024

  /** An application message; text is kept as its octets. */
  datatype Payload = Text(bytes: seq<Byte>) | Binary(bytes: seq<Byte>)

  datatype DecodeError = TooShort | Replay | OpenFailed | BadUtf8 | UnknownType | EmptyPlaintext

  /** One direction of a session: key, IV, associated data, and the UTF-8 validity test. */
  datatype Link = Link(aead: Aead, iv: Nonce, aad: seq<Byte>, utf8: seq<Byte> -> bool)

  ghost predicate Usable(l: Link) {
    Tagged(l.aead)
  }

  function TypeByte(p: Payload): Byte {
    if p.Text? then MSG_TEXT else MSG_BINARY
  }

  function Plaintext(p: Payload): seq<Byte> {
    [TypeByte(p)] + p.bytes
  }

  /** The wire frame carrying `p` under `counter`. */
  function SealedFrame(l: Link, counter: nat, p: Payload): seq<Byte>
  {
    var n := NonceOf(l.iv, counter);
    n + l.aead.seal(n, l.aad, Plaintext(p))
  }

  /** What a decrypted plaintext means to the receiver. */
  function Classify(l: Link, plain: seq<Byte>): Result<Payload, DecodeError> {
    if plain == [] then Err(EmptyPlaintext)
    else if plain[0] == MSG_TEXT then
      if l.utf8(plain[1..]) then Ok(Text(plain[1..])) else Err(BadUtf8)
    else if plain[0] == MSG_BINARY then Ok(Binary(plain[1..]))
    else Err(UnknownType)
  }

  /** Frame decoding: the verdict and the counter floor afterwards. The floor moves as soon as
      the counter is new, before the frame is authenticated. */
  function Decode(l: Link, frame: seq<Byte>, last: nat): (Result<Payload, DecodeError>, nat)
  {
    if |frame| < MIN_FRAME then (Err(TooShort), last)
    else
      var c := CounterOf(frame[..12], l.iv);
      if c <= last then (Err(Replay), last)
      else
        match l.aead.open(frame[..12], l.aad, frame[12..])
        case None => (Err(OpenFailed), c)
        case Some(plain) => (Classify(l, plain), c)
  }

  /** The receiver that accepts `p`: any binary message, and text that is UTF-8. */
  predicate Readable(l: Link, p: Payload) {
    p.Text? ==> l.utf8(p.bytes)
  }

  method ExtractCounter(nonce: Nonce, iv: Nonce) returns (counter: nat)
    ensures counter == CounterOf(nonce, iv)
    ensures forall c :: 0 <= c < U64_LIMIT && nonce == NonceOf(iv, c) ==> counter == c
  {
    var buf := new Byte[8](_ => 0);
    for i := 0 to 8
      invariant forall k :: 0 <= k < i ==> buf[k] == XorByte(nonce[4 + k], iv[4 + k])
    {
      buf[i] := XorByte(nonce[4 + i], iv[4 + i]);
    }
    assert buf[..] == Xor(nonce[4..], iv[4..]);
    counter := FromBe(buf[..]);
    forall c | 0 <= c < U64_LIMIT && nonce == NonceOf(iv, c)
      ensures counter == c
    {
      CounterOfNonce(iv, c);
    }
  }

  method DecodeInbound(l: Link, frame: seq<Byte>, lastCounter: nat)
    returns (r: Result<Payload, DecodeError>, last: nat)
    ensures (r, last) == Decode(l, frame, lastCounter)
    ensures r.Ok? ==> lastCounter < last
  {
    last := lastCounter;
    if |frame| < MIN_FRAME {
      return Err(TooShort), last;
    }
    var counter := ExtractCounter(frame[..12], l.iv);
    if counter <= last {
      return Err(Replay), last;
    }
    last := counter;
    var plain := l.aead.open(frame[..12], l.aad, frame[12..]);
    if plain.None? {
      return Err(OpenFailed), last;
    }
    r := Classify(l, plain.value);
  }

  /** A key that numbers its records: the first is 1, each next one more. When the 64-bit
      counter is used up it refuses to seal. */
  class BoundKey {
    const link: Link
    var counter: nat

    ghost predicate Valid()
      reads this
    {
      Usable(link) && counter < U64_LIMIT
    }

    constructor (link: Link)
      requires Usable(link)
      ensures Valid() && this.link == link && counter == 0
    {
      this.link := link;
      counter := 0;
    }

    method Seal(plain: seq<Byte>) returns (r: Option<(seq<Byte>, seq<Byte>)>)
      requires Valid()
      modifies this`counter
      ensures Valid()
      ensures r.None? <==> old(counter) + 1 == U64_LIMIT
      ensures r.None? ==> counter == old(counter)
      ensures r.Some? ==>
        && counter == old(counter) + 1
        && r.value.0 == NonceOf(link.iv, counter)
        && r.value.1 == link.aead.seal(r.value.0, link.aad, plain)
    {
      if counter + 1 == U64_LIMIT {
        return None;
      }
      counter := counter + 1;
      var nonce := NonceOf(link.iv, counter);
      r := Some((nonce, link.aead.seal(nonce, link.aad, plain)));
    }
  }

  method EncodeOutbound(p: Payload, key: BoundKey) returns (r: Option<seq<Byte>>)
    requires key.Valid()
    modifies key`counter
    ensures key.Valid()
    ensures r.None? <==> old(key.counter) + 1 == U64_LIMIT
    ensures r.None? ==> key.counter == old(key.counter)
    ensures r.Some? ==>
      && key.counter == old(key.counter) + 1
      && r.value == SealedFrame(key.link, key.counter, p)
      && |r.value| == |p.bytes| + MIN_FRAME
  {
    var sealed := key.Seal(Plaintext(p));
    if sealed.None? {
      return None;
    }
    r := Some(sealed.value.0 + sealed.value.1);
  }

  /** A frame is exactly 29 octets longer than its payload, so it is never too short. */
  lemma {:induction false} SealedFrameLength(l: Link, counter: nat, p: Payload)
    requires Usable(l)
    ensures |SealedFrame(l, counter, p)| == |p.bytes| + 29
  {
    var n := NonceOf(l.iv, counter);
    assert |l.aead.seal(n, l.aad, Plaintext(p))| == |Plaintext(p)| + TAG_LEN;
  }

  /** Frames share a nonce if and only if they share a number. The frames of one bridge have
      different numbers; the bridges of one session all number from one. */
  lemma {:induction false} FrameNonces(l: Link, a: nat, p: Payload, b: nat, q: Payload)
    requires Usable(l) && a < U64_LIMIT && b < U64_LIMIT
    ensures |SealedFrame(l, a, p)| >= 12 && |SealedFrame(l, b, q)| >= 12
    ensures SealedFrame(l, a, p)[..12] == SealedFrame(l, b, q)[..12] <==> a == b
  {
    hide NonceOf;
    NoncesDistinct(l.iv, a, b);
  }

  /** A frame with a fresh counter decodes to the message sealed in it, provided it is readable. */
  lemma {:induction false} DecodeSealed(l: Link, counter: nat, p: Payload, last: nat)
    requires Usable(l)
    requires last < counter < U64_LIMIT
    requires Correct(l.aead, [Record(NonceOf(l.iv, counter), l.aad, Plaintext(p))])
    ensures Decode(l, SealedFrame(l, counter, p), last).1 == counter
    ensures Decode(l, SealedFrame(l, counter, p), last).0.Ok? <==> Readable(l, p)
    ensures Readable(l, p) ==> Decode(l, SealedFrame(l, counter, p), last).0 == Ok(p)
  {
    var n := NonceOf(l.iv, counter);
    var f := SealedFrame(l, counter, p);
    SealedFrameLength(l, counter, p);
    assert f[..12] == n && f[12..] == l.aead.seal(n, l.aad, Plaintext(p));
    CounterOfNonce(l.iv, counter);
    var log := [Record(n, l.aad, Plaintext(p))];
    assert l.aead.open(log[0].nonce, log[0].aad, l.aead.seal(log[0].nonce, log[0].aad, log[0].plaintext)) == Some(Plaintext(p));
    ClassifyPlaintext(l, p);
  }

  /** The records of a client that sealed `sent` in order on a fresh key. */
  function ClientLog(l: Link, sent: seq<Payload>): (log: seq<Record>)
    ensures |log| == |sent|
    ensures forall i :: 0 <= i < |sent| ==> log[i] == Record(NonceOf(l.iv, i + 1), l.aad, Plaintext(sent[i]))
  {
    seq(|sent|, i requires 0 <= i < |sent| => Record(NonceOf(l.iv, i + 1), l.aad, Plaintext(sent[i])))
  }

  /** `frame` is the client's own sealing of its message number `c`, which is `p`. */
  ghost predicate WasSent(l: Link, sent: seq<Payload>, frame: seq<Byte>, c: nat, p: Payload)
  {
    && 1 <= c <= |sent|
    && sent[c - 1] == p
    && Readable(l, p)
    && frame == SealedFrame(l, c, p)
  }

  /** Whatever decodes against an authentic log is the client's message of that number. */
  lemma {:induction false} DecodedWasSent(l: Link, sent: seq<Payload>, frame: seq<Byte>, last: nat)
    requires |sent| < U64_LIMIT
    requires Authentic(l.aead, ClientLog(l, sent))
    requires Decode(l, frame, last).0.Ok?
    ensures last < Decode(l, frame, last).1
    ensures WasSent(l, sent, frame, Decode(l, frame, last).1, Decode(l, frame, last).0.value)
  {
    hide NonceOf, CounterOf, Authentic, ClientLog;
    var i := OpenedWasLogged(l, sent, frame[..12], frame[12..]);
    DecodedAs(l, frame, last, i + 1, sent[i]);
  }

  lemma {:induction false} DecodedAs(l: Link, frame: seq<Byte>, last: nat, c: nat, p: Payload)
    requires c < U64_LIMIT
    requires Decode(l, frame, last).0.Ok?
    requires frame[..12] == NonceOf(l.iv, c)
    requires l.aead.open(frame[..12], l.aad, frame[12..]) == Some(Plaintext(p))
    requires frame[12..] == l.aead.seal(frame[..12], l.aad, Plaintext(p))
    ensures last < c
    ensures Decode(l, frame, last) == (Ok(p), c)
    ensures Readable(l, p)
    ensures frame == SealedFrame(l, c, p)
  {
    CounterOfNonce(l.iv, c);
    ClassifyPlaintext(l, p);
    assert frame == frame[..12] + frame[12..];
  }

  lemma {:induction false} OpenedWasLogged(l: Link, sent: seq<Payload>, n: seq<Byte>, ct: seq<Byte>) returns (i: nat)
    requires Authentic(l.aead, ClientLog(l, sent))
    requires l.aead.open(n, l.aad, ct).Some?
    ensures i < |sent|
    ensures n == NonceOf(l.iv, i + 1)
    ensures l.aead.open(n, l.aad, ct) == Some(Plaintext(sent[i]))
    ensures ct == l.aead.seal(n, l.aad, Plaintext(sent[i]))
  {
    var r := Record(n, l.aad, l.aead.open(n, l.aad, ct).value);
    var log := ClientLog(l, sent);
    assert Logged(log, r);
    i :| 0 <= i < |log| && log[i] == r;
  }

  lemma {:induction false} ClassifyPlaintext(l: Link, p: Payload)
    ensures Classify(l, Plaintext(p)).Ok? <==> Readable(l, p)
    ensures Readable(l, p) ==> Classify(l, Plaintext(p)) == Ok(p)
  {
    assert Plaintext(p)[1..] == p.bytes;
  }

  /** What a plaintext can be: a zero octet and UTF-8 text, or a one and any octets; nothing else. */
  lemma {:induction false} ClassifyExactly(l: Link, plain: seq<Byte>, bytes: seq<Byte>)
    ensures Classify(l, plain) == Ok(Text(bytes)) <==> plain == [0] + bytes && l.utf8(bytes)
    ensures Classify(l, plain) == Ok(Binary(bytes)) <==> plain == [1] + bytes
  {
    assert ([0] + bytes)[1..] == bytes && ([1] + bytes)[1..] == bytes;
    if plain != [] {
      assert plain == [plain[0]] + plain[1..];
    }
  }
}
