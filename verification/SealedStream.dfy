/** What the frame decoder accepts on a session that carries one sealed response stream. */
module SealedStream {
  import opened Prelude
  import opened Bytes
  import opened Aeads
  import opened StreamFrames

  /** A frame as the server sealed it: its content, its counter, the chained hash over the
      ciphertexts before it, and its ciphertext. */
  datatype Sealed = Sealed(frame: StreamFrame, counter: nat, prev: seq<Byte>, cipher: seq<Byte>)

  /** A response stream as the server sealed it. */
  type Stream = seq<Sealed>

  /** A frame and the counter it is to be sealed under. */
  datatype Numbered = Numbered(frame: StreamFrame, counter: nat)

  function Text(s: Session, f: StreamFrame): seq<Byte> {
    s.render(ToWire(f))
  }

  function CipherOf(s: Session, n: Numbered, prev: seq<Byte>): seq<Byte> {
    s.aead.seal(NonceOf(s.iv, n.counter), s.aad + prev, Text(s, n.frame))
  }

  /** The chained hash at position `k` of a stream. */
  function HashAt(s: Session, st: Stream, k: nat): seq<Byte>
    requires k <= |st|
  {
    if k == 0 then GENESIS else s.hash(st[k - 1].prev + st[k - 1].cipher)
  }

  /** Frame `k` is sealed under its counter and the hash of all before it. */
  ghost predicate SealedAt(s: Session, st: Stream, k: nat)
    requires k < |st|
  {
    && st[k].prev == HashAt(s, st, k)
    && st[k].cipher == CipherOf(s, Numbered(st[k].frame, st[k].counter), st[k].prev)
  }

  ghost predicate IsSealed(s: Session, st: Stream) {
    forall k :: 0 <= k < |st| ==> SealedAt(s, st, k)
  }

  function SealNext(s: Session, st: Stream, n: Numbered): Sealed {
    var prev := HashAt(s, st, |st|);
    Sealed(n.frame, n.counter, prev, CipherOf(s, n, prev))
  }

  /** Seal the first `k` of `frames`. */
  function Seal(s: Session, frames: seq<Numbered>, k: nat): (st: Stream)
    requires k <= |frames|
    ensures |st| == k
  {
    if k == 0 then [] else Seal(s, frames, k - 1) + [SealNext(s, Seal(s, frames, k - 1), frames[k - 1])]
  }

  lemma {:induction false} SealedAppend(s: Session, st: Stream, n: Numbered)
    requires IsSealed(s, st)
    ensures IsSealed(s, st + [SealNext(s, st, n)])
  {
    hide CipherOf;
    var st' := st + [SealNext(s, st, n)];
    forall k | 0 <= k < |st'|
      ensures SealedAt(s, st', k)
    {
      assert HashAt(s, st', k) == HashAt(s, st, k);
      assert k < |st| ==> SealedAt(s, st, k);
    }
  }

  /** `st` carries `frames`: the same contents under the same counters. */
  predicate Carries(st: Stream, frames: seq<Numbered>) {
    && |st| == |frames|
    && forall i :: 0 <= i < |st| ==> Numbered(st[i].frame, st[i].counter) == frames[i]
  }

  lemma {:induction false} SealSeals(s: Session, frames: seq<Numbered>, k: nat)
    requires k <= |frames|
    ensures IsSealed(s, Seal(s, frames, k))
    ensures Carries(Seal(s, frames, k), frames[..k])
  {
    if k > 0 {
      hide IsSealed;
      SealSeals(s, frames, k - 1);
      SealedAppend(s, Seal(s, frames, k - 1), frames[k - 1]);
    }
  }

  /** One frame on the wire. */
  function FrameBytes(f: Sealed): seq<Byte> {
    U32Be(|f.cipher|) + U64Be(f.counter) + f.cipher
  }

  /** The first `k` frames on the wire. */
  function BytesOf(st: Stream, k: nat): seq<Byte>
    requires k <= |st|
  {
    if k == 0 then [] else BytesOf(st, k - 1) + FrameBytes(st[k - 1])
  }

  lemma {:induction false} BytesPrefix(st: Stream, i: nat, k: nat)
    requires i <= k <= |st|
    ensures BytesOf(st, i) <= BytesOf(st, k)
    decreases k
  {
    hide FrameBytes;
    if i < k {
      BytesPrefix(st, i, k - 1);
    }
  }

  /** The log of the sealing key. */
  function Log(s: Session, st: Stream): (log: seq<Record>)
    ensures |log| == |st|
  {
    seq(|st|, k requires 0 <= k < |st| => Record(NonceOf(s.iv, st[k].counter), s.aad + st[k].prev, Text(s, st[k].frame)))
  }

  /** The bodies of frames `1..k`, concatenated. */
  function Bodies(st: Stream, k: nat): seq<Byte>
    requires k <= |st|
  {
    if k <= 1 then [] else Bodies(st, k - 1) + (if st[k - 1].frame.Body? then st[k - 1].frame.data else [])
  }

  /** A Head, then bodies. */
  ghost predicate HeadThenBodies(st: Stream) {
    && |st| > 0
    && st[0].frame.Head?
    && forall k :: 0 < k < |st| ==> st[k].frame.Body?
  }

  /** Counters and lengths fit their fields. */
  ghost predicate Fits(st: Stream) {
    forall k :: 0 <= k < |st| ==> st[k].counter < U64_LIMIT && |st[k].cipher| < U32_LIMIT
  }

  /** The chained hash never repeats along the stream. */
  ghost predicate ChainDistinct(s: Session, st: Stream) {
    forall i, k :: 0 <= i < k <= |st| ==> HashAt(s, st, i) != HashAt(s, st, k)
  }

  /** What the first `k` frames say. */
  function Said(st: Stream, k: nat): Partial
    requires k <= |st|
  {
    if k == 0 || !st[0].frame.Head? then NOTHING_YET
    else Partial(Some(st[0].frame.status), st[0].frame.headers, Bodies(st, k))
  }

  /** Where a decoder stands that has read the first `k` frames. */
  function After(s: Session, st: Stream, k: nat): Cursor
    requires k <= |st|
  {
    Cursor(|BytesOf(st, k)|, HashAt(s, st, k), Said(st, k))
  }

  lemma {:induction false} SaidNext(st: Stream, k: nat)
    requires k < |st| && HeadThenBodies(st)
    ensures Accept(Said(st, k), st[k].frame) == Ok(Said(st, k + 1))
  {
  }

  // ----- nothing else is accepted

  /** What opens was logged: it is some frame `j` of the stream, at a point of the chain with
      the hash of frame `j`. */
  lemma {:induction false} OpenedWasLogged(s: Session, st: Stream, prev: seq<Byte>, f: RawFrame) returns (j: nat)
    requires IsSealed(s, st)
    requires Authentic(s.aead, Log(s, st))
    requires s.aead.open(NonceOf(s.iv, f.counter), s.aad + prev, f.ciphertext).Some?
    ensures j < |st|
    ensures NonceOf(s.iv, f.counter) == NonceOf(s.iv, st[j].counter)
    ensures prev == HashAt(s, st, j)
    ensures f.ciphertext == st[j].cipher
    ensures s.aead.open(NonceOf(s.iv, f.counter), s.aad + prev, f.ciphertext) == Some(Text(s, st[j].frame))
  {
    hide NonceOf, HashAt, Text;
    var n, d := NonceOf(s.iv, f.counter), s.aad + prev;
    var log, r := Log(s, st), Record(n, d, s.aead.open(n, d, f.ciphertext).value);
    assert Logged(log, r);
    j :| 0 <= j < |log| && log[j] == r;
    SuffixEqual(s.aad, prev, st[j].prev);
    assert SealedAt(s, st, j);
  }

  lemma {:induction false} SuffixEqual<T>(a: seq<T>, b: seq<T>, c: seq<T>)
    ensures a + b == a + c ==> b == c
  {
    if a + b == a + c {
      assert (a + b)[|a|..] == b && (a + c)[|a|..] == c;
    }
  }

  /** A frame cut off a buffer is, re-encoded, the octets it was cut from. */
  lemma {:induction false} CutRejoins(raw: seq<Byte>, offset: nat)
    requires offset < |raw| && CutFrame(raw, offset).Ok?
    ensures var (f, next) := CutFrame(raw, offset).value;
            && f.counter < U64_LIMIT
            && raw[offset..next] == U32Be(|f.ciphertext|) + U64Be(f.counter) + f.ciphertext
  {
    hide U32Be, U64Be;
    var len, body := FromBe(raw[offset..offset + 4]), offset + HEADER_LEN;
    U32Field(raw[offset..offset + 4]);
    U64Field(raw[offset + 4..body]);
    assert raw[offset..body + len] == raw[offset..offset + 4] + raw[offset + 4..body] + raw[body..body + len];
  }

  /** A text of the stream reads back as its frame. */
  lemma {:induction false} TextReadsBack(s: Session, prev: seq<Byte>, f: RawFrame, frame: StreamFrame)
    requires Usable(s)
    requires s.aead.open(NonceOf(s.iv, f.counter), s.aad + prev, f.ciphertext) == Some(Text(s, frame))
    ensures OpenFrame(s, prev, f) == Ok(frame)
  {
    hide NonceOf, ToWire, FromWire;
    FromToWire(frame);
  }

  /** A frame that opens where the decoder stands after `i` frames is the stream's frame `i`. */
  lemma {:induction false} OpenedIsNext(s: Session, st: Stream, i: nat, f: RawFrame)
    requires Usable(s) && IsSealed(s, st) && ChainDistinct(s, st) && Fits(st)
    requires Authentic(s.aead, Log(s, st))
    requires i <= |st| && f.counter < U64_LIMIT
    requires OpenFrame(s, HashAt(s, st, i), f).Ok?
    ensures i < |st|
    ensures f == RawFrame(st[i].counter, st[i].cipher)
    ensures OpenFrame(s, HashAt(s, st, i), f) == Ok(st[i].frame)
  {
    hide NonceOf, HashAt, Authentic, Log, IsSealed, Usable;
    var j := OpenedWasLogged(s, st, HashAt(s, st, i), f);
    assert i == j;
    NoncesDistinct(s.iv, f.counter, st[i].counter);
    hide OpenFrame;
    TextReadsBack(s, HashAt(s, st, i), f, st[i].frame);
  }

  lemma {:induction false} BytesNext(st: Stream, i: nat)
    requires i < |st|
    ensures BytesOf(st, i + 1) == BytesOf(st, i) + FrameBytes(st[i])
    ensures |BytesOf(st, i + 1)| == |BytesOf(st, i)| + HEADER_LEN + |st[i].cipher|
  {
    hide U32Be, U64Be;
  }

  /** Where the decoder stands after `i` frames, frame `i` takes it one frame on. */
  lemma {:induction false} TurnOnFrame(s: Session, st: Stream, i: nat, raw: seq<Byte>)
    requires HeadThenBodies(st) && i < |st| && |BytesOf(st, i)| < |raw|
    requires st[i].prev == HashAt(s, st, i)
    requires CutFrame(raw, |BytesOf(st, i)|).Ok?
    requires CutFrame(raw, |BytesOf(st, i)|).value.0 == RawFrame(st[i].counter, st[i].cipher)
    requires OpenFrame(s, HashAt(s, st, i), RawFrame(st[i].counter, st[i].cipher)) == Ok(st[i].frame)
    ensures DecodeTurn(s, raw, After(s, st, i)) == Ok(After(s, st, i + 1))
  {
    hide Said, BytesOf, FrameBytes, OpenFrame, CutFrame, Accept, HeadThenBodies;
    BytesNext(st, i);
    SaidNext(st, i);
  }

  /** A turn that succeeds where the decoder stands after `i` frames consumed frame `i`. */
  lemma {:induction false} TurnIsNext(s: Session, st: Stream, i: nat, raw: seq<Byte>)
    requires Usable(s) && IsSealed(s, st) && ChainDistinct(s, st) && Fits(st) && HeadThenBodies(st)
    requires Authentic(s.aead, Log(s, st))
    requires i <= |st| && |BytesOf(st, i)| < |raw|
    requires DecodeTurn(s, raw, After(s, st, i)).Ok?
    ensures i < |st|
    ensures DecodeTurn(s, raw, After(s, st, i)) == Ok(After(s, st, i + 1))
    ensures |BytesOf(st, i + 1)| <= |raw|
    ensures raw[|BytesOf(st, i)|..|BytesOf(st, i + 1)|] == FrameBytes(st[i])
  {
    hide Usable, ChainDistinct, Authentic, HashAt, Said, BytesOf, OpenFrame, CutFrame, Log, HeadThenBodies;
    CutRejoins(raw, |BytesOf(st, i)|);
    OpenedIsNext(s, st, i, CutFrame(raw, |BytesOf(st, i)|).value.0);
    assert SealedAt(s, st, i);
    TurnOnFrame(s, st, i, raw);
  }

  /** Everything the decoder accepts from there on is a whole number of further frames. */
  lemma {:induction false} AcceptedFrom(s: Session, st: Stream, i: nat, raw: seq<Byte>) returns (k: nat)
    requires Usable(s) && IsSealed(s, st) && ChainDistinct(s, st) && Fits(st) && HeadThenBodies(st)
    requires Authentic(s.aead, Log(s, st))
    requires i <= |st| && BytesOf(st, i) <= raw
    requires DecodeFrom(s, raw, After(s, st, i)).Ok?
    ensures i <= k <= |st|
    ensures raw == BytesOf(st, k)
    ensures DecodeFrom(s, raw, After(s, st, i)) == Finish(Said(st, k))
    decreases |raw| - |BytesOf(st, i)|
  {
    hide Usable, IsSealed, ChainDistinct, Fits, Authentic, Log, HashAt, Said, BytesOf, DecodeTurn, HeadThenBodies, FrameBytes, Finish;
    if |BytesOf(st, i)| == |raw| {
      return i;
    }
    TurnIsNext(s, st, i, raw);
    BytesNext(st, i);
    PrefixGrows(BytesOf(st, i), FrameBytes(st[i]), raw);
    k := AcceptedFrom(s, st, i + 1, raw);
  }

  lemma {:induction false} PrefixGrows<T>(a: seq<T>, b: seq<T>, c: seq<T>)
    requires a <= c && |a| + |b| <= |c|
    requires c[|a|..|a| + |b|] == b
    ensures a + b <= c
  {
    assert c[..|a| + |b|] == c[..|a|] + c[|a|..|a| + |b|];
  }

  // ----- all of it is accepted

  /** The wire form of frame `i`, wherever it stands in a buffer, is cut off as frame `i`. */
  lemma {:induction false} CutFrameBytes(st: Stream, i: nat, raw: seq<Byte>, offset: nat)
    requires Fits(st) && i < |st|
    requires offset + |FrameBytes(st[i])| <= |raw|
    requires raw[offset..offset + |FrameBytes(st[i])|] == FrameBytes(st[i])
    ensures offset < |raw|
    ensures CutFrame(raw, offset).Ok?
    ensures CutFrame(raw, offset).value.0 == RawFrame(st[i].counter, st[i].cipher)
  {
    hide U32Be, U64Be;
    var c := st[i].cipher;
    var b := FrameBytes(st[i]);
    U32RoundTrip(|c|);
    U64RoundTrip(st[i].counter);
    assert raw[offset..offset + 4] == b[..4] == U32Be(|c|);
    assert raw[offset + 4..offset + HEADER_LEN] == b[4..HEADER_LEN] == U64Be(st[i].counter);
    assert raw[offset + HEADER_LEN..offset + HEADER_LEN + |c|] == b[HEADER_LEN..] == c;
  }

  /** Frame `i` opens at its own position. */
  lemma {:induction false} OwnFrameOpens(s: Session, st: Stream, i: nat)
    requires Usable(s) && IsSealed(s, st)
    requires Correct(s.aead, Log(s, st))
    requires i < |st|
    ensures OpenFrame(s, HashAt(s, st, i), RawFrame(st[i].counter, st[i].cipher)) == Ok(st[i].frame)
  {
    hide NonceOf, OpenFrame, HashAt, Usable;
    assert SealedAt(s, st, i);
    var r := Log(s, st)[i];
    assert s.aead.open(r.nonce, r.aad, s.aead.seal(r.nonce, r.aad, r.plaintext)) == Some(r.plaintext);
    TextReadsBack(s, HashAt(s, st, i), RawFrame(st[i].counter, st[i].cipher), st[i].frame);
  }

  lemma {:induction false} DecodesFrom(s: Session, st: Stream, i: nat, k: nat)
    requires Usable(s) && IsSealed(s, st) && Fits(st) && HeadThenBodies(st)
    requires Correct(s.aead, Log(s, st))
    requires i <= k <= |st|
    ensures |BytesOf(st, i)| <= |BytesOf(st, k)|
    ensures DecodeFrom(s, BytesOf(st, k), After(s, st, i)) == Finish(Said(st, k))
    decreases k - i
  {
    hide Usable, IsSealed, Fits, Correct, Log, HashAt, Said, BytesOf, DecodeTurn, HeadThenBodies, FrameBytes, Finish, CutFrame, OpenFrame, SealedAt;
    BytesPrefix(st, i, k);
    if i < k {
      var raw := BytesOf(st, k);
      DecodesFrom(s, st, i + 1, k);
      BytesPrefix(st, i + 1, k);
      BytesNext(st, i);
      CutFrameBytes(st, i, raw, |BytesOf(st, i)|);
      OwnFrameOpens(s, st, i);
      PrevIsHash(s, st, i);
      TurnOnFrame(s, st, i, raw);
    }
  }

  lemma {:induction false} PrevIsHash(s: Session, st: Stream, i: nat)
    requires IsSealed(s, st) && i < |st|
    ensures st[i].prev == HashAt(s, st, i)
  {
    assert SealedAt(s, st, i);
  }

  /** A session that carried `st` and nothing else under its key. */
  ghost predicate CarriedOnly(s: Session, st: Stream) {
    && Usable(s) && IsSealed(s, st) && Fits(st) && HeadThenBodies(st) && ChainDistinct(s, st)
    && Authentic(s.aead, Log(s, st)) && Correct(s.aead, Log(s, st))
  }

  /** The decoder accepts a byte string if and only if it is the stream cut after some frame,
      the Head at least. Dropped, swapped, repeated or foreign frames are refused; a cut at a
      frame boundary is not noticed. */
  lemma {:induction false} AcceptsExactlyPrefixes(s: Session, st: Stream, raw: seq<Byte>)
    requires CarriedOnly(s, st)
    ensures DecodeStream(s, raw).Ok? <==> exists k :: 1 <= k <= |st| && raw == BytesOf(st, k)
  {
    hide Usable, IsSealed, Fits, ChainDistinct, Correct, Authentic, Log, DecodeFrom;
    if DecodeStream(s, raw).Ok? {
      var k := AcceptedFrom(s, st, 0, raw);
    }
    forall k | 1 <= k <= |st| && raw == BytesOf(st, k)
      ensures DecodeStream(s, raw).Ok?
    {
      ReadsPrefix(s, st, k);
    }
  }

  /** What an accepted cut says: the status and headers of the Head, and the bodies so far. An
      honest stream reads so whatever else the key may have sealed. */
  lemma {:induction false} ReadsPrefix(s: Session, st: Stream, k: nat)
    requires Usable(s) && IsSealed(s, st) && Fits(st) && HeadThenBodies(st)
    requires Correct(s.aead, Log(s, st))
    requires 1 <= k <= |st|
    ensures DecodeStream(s, BytesOf(st, k)) == Ok(FramedResponse(st[0].frame.status, st[0].frame.headers, Bodies(st, k)))
  {
    hide Usable, IsSealed, Fits, Correct, Log, DecodeFrom;
    DecodesFrom(s, st, 0, k);
  }

  // ----- the chain

  /** The hash has no collision among this stream's own inputs, and none of them hashes to the
      all-zero start value. */
  ghost predicate CollisionFree(s: Session, st: Stream) {
    && (forall a, b :: 0 <= a < b < |st| && HashAt(s, st, a + 1) == HashAt(s, st, b + 1) ==>
          st[a].prev + st[a].cipher == st[b].prev + st[b].cipher)
    && (forall a :: 0 < a <= |st| ==> HashAt(s, st, a) != GENESIS)
  }

  /** Why the chain does not repeat: two equal hashes would, link by link, lead back to a hash
      equal to the start value. */
  lemma {:induction false} CollisionFreeChain(s: Session, st: Stream, i: nat, k: nat)
    requires Usable(s) && IsSealed(s, st) && CollisionFree(s, st)
    requires i < k <= |st|
    ensures HashAt(s, st, i) != HashAt(s, st, k)
    decreases i
  {
    if i > 0 {
      CollisionFreeChain(s, st, i - 1, k - 1);
      HashLength(s, st, i - 1);
      HashLength(s, st, k - 1);
      SamePrefix(st[i - 1].prev, st[k - 1].prev, st[i - 1].cipher, st[k - 1].cipher);
      PrevIsHash(s, st, i - 1);
      PrevIsHash(s, st, k - 1);
    }
  }

  lemma {:induction false} HashLength(s: Session, st: Stream, k: nat)
    requires Usable(s)
    requires k <= |st|
    ensures |HashAt(s, st, k)| == HASH_LEN
  {
  }

  lemma {:induction false} SamePrefix<T>(a: seq<T>, b: seq<T>, c: seq<T>, d: seq<T>)
    ensures |a| == |b| && a + c == b + d ==> a == b
  {
    if |a| == |b| && a + c == b + d {
      assert (a + c)[..|a|] == a && (b + d)[..|a|] == b;
    }
  }
}
