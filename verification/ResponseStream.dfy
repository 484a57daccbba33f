/** The proxy's response (src/proxy.rs): a Head frame, then one Body frame per upstream chunk
    under a running size cap, sealed as one stream. */
module ResponseStream {
  import opened Prelude
  import opened Bytes
  import opened Aeads
  import opened Usize
  import opened StreamFrames
  import opened SealedStream

  /** One item of the upstream body stream. */
  datatype Chunk = Good(data: seq<Byte>) | ReadFailed

  /** One item of the frame stream handed to the sealer. */
  datatype Item = Frame(frame: StreamFrame) | BodyTooLarge | BodyReadFailed

  /** The running total after the first `k` chunks, saturating. */
  function Running(chunks: seq<Chunk>, k: nat): nat
    requires k <= |chunks|
  {
    if k == 0 then 0
    else if chunks[k - 1].Good? then SaturatingAdd(Running(chunks, k - 1), |chunks[k - 1].data|)
    else Running(chunks, k - 1)
  }

  /** What becomes of chunk `k`. */
  function ItemOf(chunks: seq<Chunk>, max: nat, k: nat): Item
    requires k < |chunks|
  {
    if chunks[k].ReadFailed? then BodyReadFailed
    else if Running(chunks, k + 1) > max then BodyTooLarge
    else Frame(Body(chunks[k].data))
  }

  /** The scan over the upstream body, with its running total as a variable. */
  method ScanBodies(chunks: seq<Chunk>, max: nat) returns (items: seq<Item>)
    ensures |items| == |chunks|
    ensures forall k :: 0 <= k < |chunks| ==> items[k] == ItemOf(chunks, max, k)
  {
    items := [];
    var acc: nat := 0;
    for i := 0 to |chunks|
      invariant acc == Running(chunks, i)
      invariant |items| == i
      invariant forall k :: 0 <= k < i ==> items[k] == ItemOf(chunks, max, k)
    {
      var out;
      match chunks[i] {
        case ReadFailed => out := BodyReadFailed;
        case Good(c) =>
          acc := SaturatingAdd(acc, |c|);
          out := if acc > max then BodyTooLarge else Frame(Body(c));
      }
      items := items + [out];
    }
  }

  /** The number of items before the first error: that many bodies are sealed. */
  function EmittedFrom(chunks: seq<Chunk>, max: nat, k: nat): (n: nat)
    requires k <= |chunks|
    ensures k <= n <= |chunks|
    ensures forall i :: k <= i < n ==> ItemOf(chunks, max, i).Frame?
    ensures n < |chunks| ==> !ItemOf(chunks, max, n).Frame?
    decreases |chunks| - k
  {
    if k == |chunks| || !ItemOf(chunks, max, k).Frame? then k else EmittedFrom(chunks, max, k + 1)
  }

  function Emitted(chunks: seq<Chunk>, max: nat): (n: nat)
    ensures n <= |chunks|
  {
    EmittedFrom(chunks, max, 0)
  }

  /** The octets of the first `k` chunks. */
  function Joined(chunks: seq<Chunk>, k: nat): seq<Byte>
    requires k <= |chunks|
  {
    if k == 0 then []
    else Joined(chunks, k - 1) + (if chunks[k - 1].Good? then chunks[k - 1].data else [])
  }

  /** The running total is the true total, cut off at the largest `usize`. */
  lemma {:induction false} RunningIsTotal(chunks: seq<Chunk>, k: nat)
    requires k <= |chunks|
    ensures Running(chunks, k) == if |Joined(chunks, k)| > USIZE_MAX then USIZE_MAX else |Joined(chunks, k)|
  {
    if k > 0 {
      RunningIsTotal(chunks, k - 1);
    }
  }

  /** `k` is the length of the longest prefix of good chunks whose total fits the cap. */
  predicate LongestFit(chunks: seq<Chunk>, max: nat, k: nat)
    requires k <= |chunks|
  {
    && (forall i :: 0 <= i < k ==> chunks[i].Good?)
    && |Joined(chunks, k)| <= max
    && (k < |chunks| && chunks[k].Good? ==> |Joined(chunks, k + 1)| > max)
  }

  /** The exact condition under which the cap holds: the bodies sealed are the longest prefix of
      good chunks that fits if and only if the cap is below the largest `usize`, where
      saturation cannot hide an excess, or what is sealed fits anyhow. */
  lemma {:induction false} CapHoldsExactly(chunks: seq<Chunk>, max: nat)
    requires max <= USIZE_MAX
    ensures LongestFit(chunks, max, Emitted(chunks, max))
            <==> max < USIZE_MAX || |Joined(chunks, GoodCount(chunks, 0))| <= USIZE_MAX
  {
    var n := Emitted(chunks, max);
    RunningIsTotal(chunks, n);
    EmittedAreGood(chunks, max, n);
    if n < |chunks| {
      RunningIsTotal(chunks, n + 1);
    }
    if n > 0 {
      assert ItemOf(chunks, max, n - 1).Frame?;
    }
    if max == USIZE_MAX {
      UncappedIsGoodCount(chunks, n);
    }
  }

  /** Where it does not: three chunks, each within what memory can hold, whose total is beyond the
      largest `usize`, under a cap of that. All three are sealed. */
  lemma {:induction false} CapFailsAtLargest(a: seq<Byte>, b: seq<Byte>, c: seq<Byte>)
    requires |a| == |b| == USIZE_MAX / 2 && |c| == 2
    ensures var chunks := [Good(a), Good(b), Good(c)];
            && Emitted(chunks, USIZE_MAX) == 3
            && |Joined(chunks, 3)| > USIZE_MAX
            && !LongestFit(chunks, USIZE_MAX, Emitted(chunks, USIZE_MAX))
  {
    var chunks := [Good(a), Good(b), Good(c)];
    hide LongestFit;
    CapHoldsExactly(chunks, USIZE_MAX);
    UncappedIsGoodCount(chunks, Emitted(chunks, USIZE_MAX));
    assert GoodCount(chunks, 3) == 3;
    assert GoodCount(chunks, 2) == 3;
    assert GoodCount(chunks, 1) == 3;
    assert GoodCount(chunks, 0) == 3;
    assert Joined(chunks, 1) == a && Joined(chunks, 2) == a + b && Joined(chunks, 3) == a + b + c;
  }

  lemma {:induction false} EmittedAreGood(chunks: seq<Chunk>, max: nat, n: nat)
    requires n == Emitted(chunks, max)
    ensures forall i :: 0 <= i < n ==> chunks[i].Good?
  {
    forall i | 0 <= i < n
      ensures chunks[i].Good?
    {
      assert ItemOf(chunks, max, i).Frame?;
    }
  }

  /** The number of leading good chunks. */
  function GoodCount(chunks: seq<Chunk>, k: nat): (n: nat)
    requires k <= |chunks|
    ensures k <= n <= |chunks|
    ensures forall i :: k <= i < n ==> chunks[i].Good?
    ensures n < |chunks| ==> chunks[n].ReadFailed?
    decreases |chunks| - k
  {
    if k == |chunks| || chunks[k].ReadFailed? then k else GoodCount(chunks, k + 1)
  }

  lemma {:induction false} UncappedIsGoodCount(chunks: seq<Chunk>, n: nat)
    requires n == Emitted(chunks, USIZE_MAX)
    ensures n == GoodCount(chunks, 0)
  {
    EmittedAreGood(chunks, USIZE_MAX, n);
    if n < |chunks| {
      RunningIsTotal(chunks, n + 1);
    }
  }

  /** Once the cap is passed it stays passed: after a too-large chunk no chunk becomes a frame,
      even for a sealer that read on. */
  lemma {:induction false} OverCapStaysOver(chunks: seq<Chunk>, max: nat, i: nat, k: nat)
    requires i <= k < |chunks|
    requires max < USIZE_MAX
    requires ItemOf(chunks, max, i) == BodyTooLarge
    ensures Running(chunks, k + 1) > max
    ensures !ItemOf(chunks, max, k).Frame?
    decreases k
  {
    RunningIsTotal(chunks, k);
    if i < k {
      OverCapStaysOver(chunks, max, i, k - 1);
    }
  }

  /** A failed read, unlike an excess, is not remembered: a sealer that read on would seal the
      next chunk. That the sealer stops at the first error is what makes the body a prefix. */
  lemma {:induction false} ReadFailureIsForgotten(a: seq<Byte>, max: nat)
    requires |a| <= max <= USIZE_MAX
    ensures ItemOf([ReadFailed, Good(a)], max, 0) == BodyReadFailed
    ensures ItemOf([ReadFailed, Good(a)], max, 1) == Frame(Body(a))
  {
    var chunks := [ReadFailed, Good(a)];
    assert Running(chunks, 1) == 0;
    assert Running(chunks, 2) == |a|;
  }

  // ----- the whole response

  const PAYLOAD_TOO_LARGE: nat := 413

  /** What the upstream answers. */
  datatype Upstream = Upstream(status: nat, headers: Headers, contentLength: Option<nat>, chunks: seq<Chunk>)

  const TEXT_PLAIN: Headers := [("content-type", "text/plain")]

  /** An error the proxy makes up itself travels as a response of its own. */
  function ErrorFrames(status: nat, message: seq<Byte>): seq<StreamFrame> {
    [Head(status, TEXT_PLAIN), Body(message)]
  }

  /** The announced length alone refuses the response. */
  predicate AnnouncedTooLarge(u: Upstream, max: nat) {
    u.contentLength.Some? && u.contentLength.value > max
  }

  /** The frames sealed for `u`; `refusal` is the text of the proxy's own error. */
  function ResponseFrames(u: Upstream, max: nat, refusal: seq<Byte>): (frames: seq<StreamFrame>)
    ensures |frames| > 0 && frames[0].Head?
    ensures forall i :: 0 < i < |frames| ==> frames[i].Body?
  {
    if AnnouncedTooLarge(u, max) then ErrorFrames(PAYLOAD_TOO_LARGE, refusal)
    else [Head(u.status, u.headers)] + BodyFrames(u.chunks, Emitted(u.chunks, max))
  }

  function BodyFrames(chunks: seq<Chunk>, n: nat): (frames: seq<StreamFrame>)
    requires n <= |chunks|
    ensures |frames| == n
    ensures forall i :: 0 <= i < n ==> frames[i] == Body(if chunks[i].Good? then chunks[i].data else [])
  {
    seq(n, i requires 0 <= i < n => Body(if chunks[i].Good? then chunks[i].data else []))
  }

  /** The sealed form of `frames` under the given counters. */
  function SealFrames(s: Session, frames: seq<StreamFrame>, counters: seq<nat>): (st: Stream)
    requires |counters| == |frames|
    ensures |st| == |frames|
  {
    Seal(s, seq(|frames|, i requires 0 <= i < |frames| => Numbered(frames[i], counters[i])), |frames|)
  }

  lemma {:induction false} SealFramesSeals(s: Session, frames: seq<StreamFrame>, counters: seq<nat>)
    requires |counters| == |frames|
    ensures IsSealed(s, SealFrames(s, frames, counters))
    ensures forall i :: 0 <= i < |frames| ==> SealFrames(s, frames, counters)[i].frame == frames[i]
  {
    hide IsSealed, Seal;
    var numbered := seq(|frames|, i requires 0 <= i < |frames| => Numbered(frames[i], counters[i]));
    SealSeals(s, numbered, |frames|);
    assert numbered[..|frames|] == numbered;
  }

  /** What the client should see of `u`. */
  function ClientView(u: Upstream, max: nat, refusal: seq<Byte>): FramedResponse {
    if AnnouncedTooLarge(u, max) then FramedResponse(PAYLOAD_TOO_LARGE, TEXT_PLAIN, refusal)
    else FramedResponse(u.status, u.headers, Joined(u.chunks, Emitted(u.chunks, max)))
  }

  lemma {:induction false} BodiesAreJoined(st: Stream, chunks: seq<Chunk>, k: nat)
    requires k <= |chunks| && k < |st|
    requires forall i :: 0 < i <= k ==> st[i].frame == Body(if chunks[i - 1].Good? then chunks[i - 1].data else [])
    ensures Bodies(st, k + 1) == Joined(chunks, k)
  {
    if k > 0 {
      BodiesAreJoined(st, chunks, k - 1);
    }
  }

  /** A stream that carries the frames of `u` says what the client should see. */
  lemma {:induction false} StreamSaysView(st: Stream, u: Upstream, max: nat, refusal: seq<Byte>)
    requires |st| == |ResponseFrames(u, max, refusal)|
    requires forall i :: 0 <= i < |st| ==> st[i].frame == ResponseFrames(u, max, refusal)[i]
    ensures HeadThenBodies(st)
    ensures FramedResponse(st[0].frame.status, st[0].frame.headers, Bodies(st, |st|)) == ClientView(u, max, refusal)
  {
    hide Emitted, Joined;
    if AnnouncedTooLarge(u, max) {
      assert st[1].frame == Body(refusal);
    } else {
      BodiesAreJoined(st, u.chunks, Emitted(u.chunks, max));
    }
  }

  /** From the upstream's chunks through cap, sealing, wire and decoder: the client reads exactly
      the view of the response. */
  lemma {:induction false} EndToEnd(s: Session, u: Upstream, max: nat, refusal: seq<Byte>, counters: seq<nat>)
    requires |counters| == |ResponseFrames(u, max, refusal)|
    requires Usable(s)
    requires var st := SealFrames(s, ResponseFrames(u, max, refusal), counters);
             Fits(st) && Correct(s.aead, Log(s, st))
    ensures var st := SealFrames(s, ResponseFrames(u, max, refusal), counters);
            DecodeStream(s, BytesOf(st, |st|)) == Ok(ClientView(u, max, refusal))
  {
    hide Usable, Fits, Correct, Log, SealFrames, IsSealed, DecodeStream, BytesOf, ResponseFrames, ClientView, Bodies, HeadThenBodies;
    var frames := ResponseFrames(u, max, refusal);
    var st := SealFrames(s, frames, counters);
    SealFramesSeals(s, frames, counters);
    StreamSaysView(st, u, max, refusal);
    ReadsPrefix(s, st, |st|);
  }

  /** The upstream's body as it meant it. */
  ghost predicate ReadsThrough(u: Upstream) {
    forall i :: 0 <= i < |u.chunks| ==> u.chunks[i].Good?
  }

  lemma {:induction false} JoinedGrows(chunks: seq<Chunk>, i: nat, k: nat)
    requires i <= k <= |chunks|
    ensures |Joined(chunks, i)| <= |Joined(chunks, k)|
    decreases k
  {
    if i < k {
      JoinedGrows(chunks, i, k - 1);
    }
  }

  /** Without read errors the client gets the whole body if and only if it fits the cap. */
  lemma {:induction false} WholeBodyIffFits(u: Upstream, max: nat)
    requires ReadsThrough(u) && max < USIZE_MAX
    ensures Joined(u.chunks, Emitted(u.chunks, max)) == Joined(u.chunks, |u.chunks|)
            <==> |Joined(u.chunks, |u.chunks|)| <= max
  {
    var n := Emitted(u.chunks, max);
    CapHoldsExactly(u.chunks, max);
    JoinedGrows(u.chunks, n, |u.chunks|);
    if n < |u.chunks| {
      JoinedGrows(u.chunks, n + 1, |u.chunks|);
    }
  }

  /** With a truthful Content-Length a response is never cut: the client gets all of it, or the
      proxy's own refusal. */
  lemma {:induction false} TruthfulLengthNeverCut(u: Upstream, max: nat, refusal: seq<Byte>)
    requires ReadsThrough(u) && max < USIZE_MAX
    requires u.contentLength == Some(|Joined(u.chunks, |u.chunks|)|)
    ensures ClientView(u, max, refusal)
            == if u.contentLength.value <= max then FramedResponse(u.status, u.headers, Joined(u.chunks, |u.chunks|))
               else FramedResponse(413, [("content-type", "text/plain")], refusal)
  {
    hide Joined, Emitted;
    WholeBodyIffFits(u, max);
  }
}
