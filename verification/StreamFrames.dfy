/** The sealed response stream (src/envelope.rs, and the frame decoder of
    tests/frame_helper/mod.rs): `[len: u32][counter: u64][ciphertext]` per frame, each
    ciphertext bound to the ones before it through a chained hash in its associated data. */
module StreamFrames {
  import opened Prelude
  import opened Bytes
  import opened Aeads
  import Hex

  const HEADER_LEN: nat := 12
  const HASH_LEN: nat := 48

  type Headers = seq<(string, string)>

  /** One frame of a response. */
  datatype StreamFrame = Head(status: nat, headers: Headers) | Body(data: seq<Byte>)

  /** The same as a JSON value: a body travels as hex text. */
  datatype WireFrame = HeadObject(status: nat, headers: Headers) | BodyObject(hex: string)

  datatype FramedResponse = FramedResponse(status: nat, headers: Headers, body: seq<Byte>)

  datatype StreamError =
    | TruncatedHeader | TruncatedBody | DecryptFailed | Malformed | SecondHead | BodyBeforeHead | NoHead

  /** The receiving session: key, IV, associated data, the hash, and the JSON text codec. */
  datatype Session = Session(
    aead: Aead,
    iv: Nonce,
    aad: seq<Byte>,
    hash: seq<Byte> -> seq<Byte>,
    render: WireFrame -> seq<Byte>,
    parse: seq<Byte> -> Option<WireFrame>
  )

  ghost predicate Usable(s: Session) {
    && Tagged(s.aead)
    && (forall x :: |s.hash(x)| == HASH_LEN)
    && (forall w :: s.parse(s.render(w)) == Some(w))
  }

  function ToWire(f: StreamFrame): WireFrame {
    match f
    case Head(status, headers) => HeadObject(status, headers)
    case Body(data) => BodyObject(Hex.Encode(data))
  }

  function FromWire(w: WireFrame): Option<StreamFrame> {
    match w
    case HeadObject(status, headers) => Some(Head(status, headers))
    case BodyObject(hex) =>
      var data := Hex.Decode(hex);
      if data.Some? then Some(Body(data.value)) else None
  }

  lemma {:induction false} FromToWire(f: StreamFrame)
    ensures FromWire(ToWire(f)) == Some(f)
  {
    if f.Body? {
      Hex.DecodeEncode(f.data);
    }
  }

  /** The hash value the chain starts from. */
  const GENESIS: seq<Byte> := Zeros(HASH_LEN)

  // ----- decoding

  /** What has been received so far. */
  datatype Partial = Partial(status: Option<nat>, headers: Headers, body: seq<Byte>)

  const NOTHING_YET := Partial(None, [], [])

  datatype RawFrame = RawFrame(counter: nat, ciphertext: seq<Byte>)

  /** The frame that starts at `offset`, and the offset behind it. */
  function CutFrame(raw: seq<Byte>, offset: nat): (r: Result<(RawFrame, nat), StreamError>)
    requires offset < |raw|
    ensures r.Ok? ==> offset < r.value.1 <= |raw| && r.value.1 == offset + HEADER_LEN + |r.value.0.ciphertext|
  {
    if offset + HEADER_LEN > |raw| then Err(TruncatedHeader)
    else
      var len := FromBe(raw[offset..offset + 4]);
      if offset + HEADER_LEN + len > |raw| then Err(TruncatedBody)
      else
        var counter := FromBe(raw[offset + 4..offset + HEADER_LEN]);
        Ok((RawFrame(counter, raw[offset + HEADER_LEN..offset + HEADER_LEN + len]), offset + HEADER_LEN + len))
  }

  /** Decrypt and parse one frame at the point of the chain where the hash is `prev`. */
  function OpenFrame(s: Session, prev: seq<Byte>, f: RawFrame): Result<StreamFrame, StreamError>
  {
    var plain := s.aead.open(NonceOf(s.iv, f.counter), s.aad + prev, f.ciphertext);
    if plain.None? then Err(DecryptFailed)
    else
      var w := s.parse(plain.value);
      if w.None? then Err(Malformed)
      else
        var frame := FromWire(w.value);
        if frame.None? then Err(Malformed) else Ok(frame.value)
  }

  /** Add one frame: a single Head first, then bodies. */
  function Accept(acc: Partial, f: StreamFrame): Result<Partial, StreamError> {
    match f
    case Head(status, headers) =>
      if acc.status.Some? then Err(SecondHead) else Ok(Partial(Some(status), headers, acc.body))
    case Body(data) =>
      if acc.status.None? then Err(BodyBeforeHead) else Ok(acc.(body := acc.body + data))
  }

  function Finish(acc: Partial): Result<FramedResponse, StreamError> {
    if acc.status.None? then Err(NoHead) else Ok(FramedResponse(acc.status.value, acc.headers, acc.body))
  }

  /** Where the decoder is: the offset, the chained hash, and what has been received. */
  datatype Cursor = Cursor(offset: nat, prev: seq<Byte>, acc: Partial)

  /** One turn of the decoder loop. */
  function DecodeTurn(s: Session, raw: seq<Byte>, at: Cursor): (r: Result<Cursor, StreamError>)
    requires at.offset < |raw|
    ensures r.Ok? ==> at.offset < r.value.offset <= |raw|
  {
    var cut := CutFrame(raw, at.offset);
    if cut.Err? then Err(cut.error)
    else
      var f, next := cut.value.0, cut.value.1;
      var frame := OpenFrame(s, at.prev, f);
      if frame.Err? then Err(frame.error)
      else
        var acc := Accept(at.acc, frame.value);
        if acc.Err? then Err(acc.error)
        else Ok(Cursor(next, s.hash(at.prev + f.ciphertext), acc.value))
  }

  /** Decode the rest of a stream. */
  function DecodeFrom(s: Session, raw: seq<Byte>, at: Cursor): Result<FramedResponse, StreamError>
    requires at.offset <= |raw|
    decreases |raw| - at.offset
  {
    if at.offset == |raw| then Finish(at.acc)
    else
      var next := DecodeTurn(s, raw, at);
      if next.Err? then Err(next.error) else DecodeFrom(s, raw, next.value)
  }

  function DecodeStream(s: Session, raw: seq<Byte>): Result<FramedResponse, StreamError> {
    DecodeFrom(s, raw, Cursor(0, GENESIS, NOTHING_YET))
  }

  /** The decoder loop. No read goes past the buffer, and every turn moves on. */
  method DecodeFrames(s: Session, raw: seq<Byte>) returns (r: Result<FramedResponse, StreamError>)
    ensures r == DecodeStream(s, raw)
  {
    var offset, prevHash, acc := 0, GENESIS, NOTHING_YET;
    while offset < |raw|
      invariant 0 <= offset <= |raw|
      invariant DecodeStream(s, raw) == DecodeFrom(s, raw, Cursor(offset, prevHash, acc))
    {
      ghost var at := Cursor(offset, prevHash, acc);
      if offset + HEADER_LEN > |raw| {
        return Err(TruncatedHeader);
      }
      var len := FromBe(raw[offset..offset + 4]);
      var counter := FromBe(raw[offset + 4..offset + HEADER_LEN]);
      offset := offset + HEADER_LEN;
      if offset + len > |raw| {
        return Err(TruncatedBody);
      }
      var ciphertext := raw[offset..offset + len];
      offset := offset + len;
      var frame := OpenFrame(s, prevHash, RawFrame(counter, ciphertext));
      if frame.Err? {
        return Err(frame.error);
      }
      prevHash := s.hash(prevHash + ciphertext);
      var next := Accept(acc, frame.value);
      if next.Err? {
        return Err(next.error);
      }
      acc := next.value;
      assert DecodeTurn(s, raw, at) == Ok(Cursor(offset, prevHash, acc));
    }
    r := Finish(acc);
  }

  /** What the decoder makes of a list of frames that opened. */
  function AcceptAll(frames: seq<StreamFrame>, k: nat): Result<Partial, StreamError>
    requires k <= |frames|
  {
    if k == 0 then Ok(NOTHING_YET)
    else
      var acc := AcceptAll(frames, k - 1);
      if acc.Err? then acc else Accept(acc.value, frames[k - 1])
  }

  /** One Head and then bodies only, or it is refused; then the status and headers are the Head's. */
  lemma {:induction false} AcceptsHeadThenBodies(frames: seq<StreamFrame>, k: nat)
    requires k <= |frames|
    ensures AcceptAll(frames, k).Ok? <==> forall i :: 0 <= i < k ==> (frames[i].Head? <==> i == 0)
    ensures AcceptAll(frames, k).Ok? ==>
      var acc := AcceptAll(frames, k).value;
      if k == 0 then acc == NOTHING_YET
      else acc.status == Some(frames[0].status) && acc.headers == frames[0].headers
  {
    if k > 0 {
      AcceptsHeadThenBodies(frames, k - 1);
    }
  }
}
