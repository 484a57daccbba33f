/** The two pump loops of the attested WebSocket bridge (src/ws.rs, run_bridge). */
module WsBridge {
  import opened Prelude
  import opened Bytes
  import opened Aeads
  import opened WsFrames

  datatype PumpEnd = Finished | ReadFailed | OverCap | Undecodable(error: DecodeError) | SendFailed | KeySpent

  // ----- client to upstream

  /** One item read from the client's WebSocket. `Frame` is an encrypted binary frame; a
      plaintext text frame is not part of the attested format and is skipped. */
  datatype Incoming =
    | Frame(data: seq<Byte>)
    | PlainText(text: seq<Byte>)
    | Ping(data: seq<Byte>)
    | Pong(data: seq<Byte>)
    | Close
    | RecvError

  /** What is written to the upstream. */
  datatype Outgoing =
    | App(payload: Payload)
    | OutPing(data: seq<Byte>)
    | OutPong(data: seq<Byte>)
    | OutClose

  /** An incoming item together with whether the write it causes succeeds. */
  datatype Event = Event(item: Incoming, sendOk: bool)

  /** The effect of some turns of the loop: what was written, the counter floor reached, and
      how the loop ended, if it did. */
  datatype Turn = Turn(wrote: seq<Outgoing>, floor: nat, end: Option<PumpEnd>)

  function Write(m: Outgoing, sendOk: bool, floor: nat): Turn {
    if sendOk then Turn([m], floor, None) else Turn([], floor, Some(SendFailed))
  }

  /** A frame decoder: the verdict on a frame when `last` is the counter floor, and the floor
      afterwards. */
  type Decoder = (seq<Byte>, nat) -> (Result<Payload, DecodeError>, nat)

  /** The decoder of an inbound link. */
  function Inbound(l: Link): Decoder {
    (frame, last) => Decode(l, frame, last)
  }

  /** One turn. `early` says whether the counter floor moves before the frame is authenticated,
      as the code does it, or only once the frame has been accepted. */
  function TurnOf(dec: Decoder, e: Event, last: nat, early: bool): Turn {
    match e.item
    case RecvError => Turn([], last, Some(ReadFailed))
    case Close => Turn(if e.sendOk then [OutClose] else [], last, Some(Finished))
    case PlainText(_) => Turn([], last, None)
    case Ping(d) => Write(OutPing(d), e.sendOk, last)
    case Pong(d) => Write(OutPong(d), e.sendOk, last)
    case Frame(d) =>
      if |d| > MAX_WS_FRAME then Turn([], last, Some(OverCap))
      else
        var (r, c) := dec(d, last);
        if r.Err? then Turn([], if early then c else last, Some(Undecodable(r.error)))
        else Write(App(r.value), e.sendOk, c)
  }

  /** The loop after the first `k` events. Once it has ended, later events change nothing. */
  function Pump(dec: Decoder, events: seq<Event>, k: nat, early: bool): Turn
    requires k <= |events|
  {
    if k == 0 then Turn([], 0, None)
    else
      var t := Pump(dec, events, k - 1, early);
      if t.end.Some? then t
      else
        var u := TurnOf(dec, events[k - 1], t.floor, early);
        Turn(t.wrote + u.wrote, u.floor, u.end)
  }

  /** The application messages among the writes. */
  function Forwarded(out: seq<Outgoing>): seq<Payload> {
    if out == [] then []
    else
      var last := out[|out| - 1];
      Forwarded(out[..|out| - 1]) + (if last.App? then [last.payload] else [])
  }

  lemma {:induction false} ForwardedAppend(out: seq<Outgoing>, m: Outgoing)
    ensures Forwarded(out + [m]) == Forwarded(out) + (if m.App? then [m.payload] else [])
  {
    assert (out + [m])[..|out|] == out;
  }

  /** One turn, carried out on the loop's own variable `lastCounter`. */
  method TakeTurn(l: Link, e: Event, lastCounter: nat) returns (t: Turn)
    ensures t == TurnOf(Inbound(l), e, lastCounter, true)
  {
    match e.item {
      case RecvError => t := Turn([], lastCounter, Some(ReadFailed));
      case PlainText(_) => t := Turn([], lastCounter, None);
      case Ping(d) => t := Write(OutPing(d), e.sendOk, lastCounter);
      case Pong(d) => t := Write(OutPong(d), e.sendOk, lastCounter);
      case Close => t := Turn(if e.sendOk then [OutClose] else [], lastCounter, Some(Finished));
      case Frame(d) =>
        if |d| > MAX_WS_FRAME {
          return Turn([], lastCounter, Some(OverCap));
        }
        var r, last := DecodeInbound(l, d, lastCounter);
        t := if r.Err? then Turn([], last, Some(Undecodable(r.error))) else Write(App(r.value), e.sendOk, last);
    }
  }

  /** An ended loop stays ended. */
  lemma {:induction false} PumpStopped(dec: Decoder, events: seq<Event>, i: nat, k: nat, early: bool)
    requires i <= k <= |events|
    requires Pump(dec, events, i, early).end.Some?
    ensures Pump(dec, events, k, early) == Pump(dec, events, i, early)
    decreases k
  {
    hide TurnOf;
    if i < k {
      PumpStopped(dec, events, i, k - 1, early);
    }
  }

  /** The client-to-upstream loop; at the end of the stream it ends as finished. */
  method ClientToUpstream(l: Link, events: seq<Event>) returns (out: seq<Outgoing>, end: PumpEnd)
    ensures out == Pump(Inbound(l), events, |events|, true).wrote
    ensures end == Pump(Inbound(l), events, |events|, true).end.GetOr(Finished)
  {
    var lastCounter := 0;
    out := [];
    for i := 0 to |events|
      invariant Pump(Inbound(l), events, i, true) == Turn(out, lastCounter, None)
    {
      var t := TakeTurn(l, events[i], lastCounter);
      out, lastCounter := out + t.wrote, t.floor;
      if t.end.Some? {
        PumpStopped(Inbound(l), events, i + 1, |events|, true);
        return out, t.end.value;
      }
    }
    end := Finished;
  }

  /** Moving the counter floor before authentication changes neither what the bridge sends nor
      how it ends, because the first undecodable frame ends the loop; the floors themselves can
      differ only after such an end. */
  lemma {:induction false} EarlyFloorIsHarmless(dec: Decoder, events: seq<Event>, k: nat)
    requires k <= |events|
    ensures Pump(dec, events, k, true).wrote == Pump(dec, events, k, false).wrote
    ensures Pump(dec, events, k, true).end == Pump(dec, events, k, false).end
    ensures Pump(dec, events, k, true).end.None? ==> Pump(dec, events, k, true).floor == Pump(dec, events, k, false).floor
    decreases k
  {
    if k > 0 {
      EarlyFloorIsHarmless(dec, events, k - 1);
    }
  }

  /** Why the loop must end there: on a frame that does not authenticate the two floors part
      exactly when its counter was new, and an honest frame numbered at or below it would then
      be refused by the one and not by the other. */
  lemma {:induction false} EarlyFloorMovesUnauthenticated(l: Link, forged: seq<Byte>, honest: seq<Byte>, last: nat)
    requires MIN_FRAME <= |forged| <= MAX_WS_FRAME && MIN_FRAME <= |honest|
    requires Decode(l, forged, last).0 == Err(OpenFailed)
    requires last < CounterOf(honest[..12], l.iv) <= CounterOf(forged[..12], l.iv)
    ensures Decode(l, honest, TurnOf(Inbound(l), Event(Frame(forged), true), last, true).floor).0 == Err(Replay)
    ensures Decode(l, honest, TurnOf(Inbound(l), Event(Frame(forged), true), last, false).floor).0 != Err(Replay)
  {
  }

  /** `wrote` is nothing of the application's, or the client's message numbered `floor`. */
  ghost predicate NextMessage(wrote: seq<Outgoing>, sent: seq<Payload>, last: nat, floor: nat) {
    || wrote == []
    || (|wrote| == 1 && !wrote[0].App?)
    || (last < floor <= |sent| && wrote == [App(sent[floor - 1])])
  }

  /** A decoder that lets through only messages of `sent`, each by a number above the floor. */
  ghost predicate OnlySent(dec: Decoder, sent: seq<Payload>) {
    forall frame, last: nat {:trigger dec(frame, last)} :: dec(frame, last).0.Ok? ==>
      last < dec(frame, last).1 <= |sent| && dec(frame, last).0 == Ok(sent[dec(frame, last).1 - 1])
  }

  /** What one turn can write, and that a turn that goes on never lowers the floor. */
  lemma {:induction false} TurnFacts(dec: Decoder, e: Event, sent: seq<Payload>, last: nat)
    requires OnlySent(dec, sent)
    ensures var t := TurnOf(dec, e, last, true);
            && NextMessage(t.wrote, sent, last, t.floor)
            && (t.end.None? ==> last <= t.floor)
  {
    if e.item.Frame? {
      var (r, c) := dec(e.item.data, last);
      assert r.Ok? ==> last < c <= |sent| && r == Ok(sent[c - 1]);
    }
  }

  /** With such a decoder, whatever events arrive, the messages forwarded are messages of
      `sent`, in order, none twice. */
  lemma {:induction false} ForwardsOnlySent(dec: Decoder, events: seq<Event>, sent: seq<Payload>)
    requires OnlySent(dec, sent)
    ensures Subsequence(Forwarded(Pump(dec, events, |events|, true).wrote), sent)
  {
    hide OnlySent, TurnOf, Pump, Forwarded;
    var idx := ForwardedPicks(dec, events, sent, |events|);
  }

  lemma {:induction false} ForwardedPicks(dec: Decoder, events: seq<Event>, sent: seq<Payload>, k: nat) returns (idx: seq<nat>)
    requires k <= |events|
    requires OnlySent(dec, sent)
    ensures Picks(idx, Forwarded(Pump(dec, events, k, true).wrote), sent)
    ensures var t := Pump(dec, events, k, true);
            t.end.None? ==> forall j :: 0 <= j < |idx| ==> idx[j] < t.floor
    decreases k
  {
    if k == 0 {
      return [];
    }
    hide OnlySent, TurnOf, Forwarded, Picks;
    idx := ForwardedPicks(dec, events, sent, k - 1);
    var t := Pump(dec, events, k - 1, true);
    if t.end.None? {
      var u := TurnOf(dec, events[k - 1], t.floor, true);
      TurnFacts(dec, events[k - 1], sent, t.floor);
      idx := PicksNext(idx, t, u, sent);
    }
  }

  lemma {:induction false} PicksNext(idx: seq<nat>, t: Turn, u: Turn, sent: seq<Payload>) returns (idx': seq<nat>)
    requires Picks(idx, Forwarded(t.wrote), sent)
    requires forall j :: 0 <= j < |idx| ==> idx[j] < t.floor
    requires NextMessage(u.wrote, sent, t.floor, u.floor)
    requires u.end.None? ==> t.floor <= u.floor
    ensures Picks(idx', Forwarded(t.wrote + u.wrote), sent)
    ensures u.end.None? ==> forall j :: 0 <= j < |idx'| ==> idx'[j] < u.floor
  {
    idx' := idx;
    if u.wrote == [] {
      assert t.wrote + u.wrote == t.wrote;
    } else {
      assert u.wrote == [u.wrote[0]];
      ForwardedAppend(t.wrote, u.wrote[0]);
      if u.wrote[0].App? {
        idx' := idx + [u.floor - 1];
      }
    }
  }

  /** The inbound decoder of an authentic link is one. */
  lemma {:induction false} InboundOnlySent(l: Link, sent: seq<Payload>)
    requires |sent| < U64_LIMIT
    requires Authentic(l.aead, ClientLog(l, sent))
    ensures OnlySent(Inbound(l), sent)
  {
    hide Authentic, ClientLog, Decode, SealedFrame;
    forall frame, last: nat | Decode(l, frame, last).0.Ok?
      ensures last < Decode(l, frame, last).1 <= |sent|
      ensures Decode(l, frame, last).0 == Ok(sent[Decode(l, frame, last).1 - 1])
    {
      DecodedWasSent(l, sent, frame, last);
    }
  }

  /** Whatever the network drops, repeats, reorders or inserts, the messages forwarded upstream
      are messages the client sealed, in the client's order, none twice, each with its tag. */
  lemma {:induction false} ForwardedWasSent(l: Link, events: seq<Event>, sent: seq<Payload>)
    requires |sent| < U64_LIMIT
    requires Authentic(l.aead, ClientLog(l, sent))
    ensures Subsequence(Forwarded(Pump(Inbound(l), events, |events|, true).wrote), sent)
  {
    hide Pump, Forwarded, Subsequence, Authentic, ClientLog, OnlySent;
    InboundOnlySent(l, sent);
    ForwardsOnlySent(Inbound(l), events, sent);
  }

  /** The events of a network that delivers `frames` faithfully, every write accepted. */
  function Faithful(frames: seq<seq<Byte>>): (events: seq<Event>)
    ensures |events| == |frames|
  {
    seq(|frames|, i requires 0 <= i < |frames| => Event(Frame(frames[i]), true))
  }

  /** Frame `i`, arriving in its turn, is forwarded as `p`. */
  ghost predicate Passes(dec: Decoder, frames: seq<seq<Byte>>, i: nat, p: Payload)
    requires i < |frames|
  {
    |frames[i]| <= MAX_WS_FRAME && dec(frames[i], i) == (Ok(p), i + 1)
  }

  /** Frame `i`, arriving in its turn, ends the loop. */
  ghost predicate Refused(dec: Decoder, frames: seq<seq<Byte>>, i: nat)
    requires i < |frames|
  {
    |frames[i]| > MAX_WS_FRAME || dec(frames[i], i).0.Err?
  }

  lemma {:induction false} PrefixAppend<T>(xs: seq<T>, i: nat)
    requires i < |xs|
    ensures xs[..i] + [xs[i]] == xs[..i + 1]
  {
  }

  lemma {:induction false} PassingTurn(dec: Decoder, frames: seq<seq<Byte>>, i: nat, p: Payload)
    requires i < |frames|
    requires Passes(dec, frames, i, p)
    ensures TurnOf(dec, Faithful(frames)[i], i, true) == Turn([App(p)], i + 1, None)
  {
  }

  lemma {:induction false} RefusedTurn(dec: Decoder, frames: seq<seq<Byte>>, i: nat)
    requires i < |frames|
    requires Refused(dec, frames, i)
    ensures var u := TurnOf(dec, Faithful(frames)[i], i, true);
            u.wrote == [] && u.end.Some?
  {
  }

  lemma {:induction false} PumpStarts(dec: Decoder, events: seq<Event>)
    ensures Pump(dec, events, 0, true) == Turn([], 0, None) && Forwarded([]) == []
  {
  }

  lemma {:induction false} PumpGoesOn(dec: Decoder, events: seq<Event>, k: nat)
    requires 0 < k <= |events|
    ensures var t := Pump(dec, events, k - 1, true);
            var u := TurnOf(dec, events[k - 1], t.floor, true);
            t.end.None? ==> Pump(dec, events, k, true) == Turn(t.wrote + u.wrote, u.floor, u.end)
  {
    hide TurnOf;
  }

  /** As long as every frame passes in its turn, the messages are forwarded one by one. */
  lemma {:induction false} PassingPrefix(dec: Decoder, frames: seq<seq<Byte>>, sent: seq<Payload>, k: nat)
    requires k <= |frames| == |sent|
    requires forall i :: 0 <= i < k ==> Passes(dec, frames, i, sent[i])
    ensures var t := Pump(dec, Faithful(frames), k, true);
            t.end.None? && t.floor == k && Forwarded(t.wrote) == sent[..k]
    decreases k
  {
    hide TurnOf, Faithful, Passes, Pump, Forwarded;
    if k == 0 {
      PumpStarts(dec, Faithful(frames));
    } else {
      PumpGoesOn(dec, Faithful(frames), k);
      PassingPrefix(dec, frames, sent, k - 1);
      PassingTurn(dec, frames, k - 1, sent[k - 1]);
      ForwardedAppend(Pump(dec, Faithful(frames), k - 1, true).wrote, App(sent[k - 1]));
      PrefixAppend(sent, k - 1);
    }
  }

  /** The first refused frame ends the run: only the messages before it are forwarded. */
  lemma {:induction false} RefusedEnds(dec: Decoder, frames: seq<seq<Byte>>, sent: seq<Payload>, j: nat)
    requires j < |frames| == |sent|
    requires forall i :: 0 <= i < j ==> Passes(dec, frames, i, sent[i])
    requires Refused(dec, frames, j)
    ensures var t := Pump(dec, Faithful(frames), |frames|, true);
            t.end.Some? && Forwarded(t.wrote) == sent[..j]
  {
    hide TurnOf, Faithful, Passes, Refused;
    PassingPrefix(dec, frames, sent, j);
    RefusedTurn(dec, frames, j);
    var t := Pump(dec, Faithful(frames), j, true);
    assert t.wrote + [] == t.wrote;
    PumpStopped(dec, Faithful(frames), j + 1, |frames|, true);
  }

  /** A message the inbound direction lets through. The cap is on the encrypted frame, so a
      payload has 29 octets less than `MAX_WS_FRAME` to itself. */
  predicate Deliverable(l: Link, p: Payload) {
    |p.bytes| + 29 <= 16 * 1024 * 1024 && Readable(l, p)
  }

  /** The frames of `sent`, numbered from one. */
  function SealAll(l: Link, sent: seq<Payload>): (fs: seq<seq<Byte>>)
    ensures |fs| == |sent|
  {
    seq(|sent|, k requires 0 <= k < |sent| => SealedFrame(l, k + 1, sent[k]))
  }

  /** A sealed frame in its turn passes as its message exactly when that is deliverable. */
  lemma {:induction false} SealedFramePasses(l: Link, sent: seq<Payload>, i: nat)
    requires Usable(l)
    requires i < |sent| < U64_LIMIT
    requires Correct(l.aead, ClientLog(l, sent))
    ensures Passes(Inbound(l), SealAll(l, sent), i, sent[i]) <==> Deliverable(l, sent[i])
    ensures Refused(Inbound(l), SealAll(l, sent), i) <==> !Deliverable(l, sent[i])
  {
    hide Decode, SealedFrame, NonceOf;
    LoggedAlone(l, sent, i);
    SealedFrameLength(l, i + 1, sent[i]);
    DecodeSealed(l, i + 1, sent[i], i);
  }

  lemma {:induction false} LoggedAlone(l: Link, sent: seq<Payload>, i: nat)
    requires i < |sent|
    requires Correct(l.aead, ClientLog(l, sent))
    ensures Correct(l.aead, [Record(NonceOf(l.iv, i + 1), l.aad, Plaintext(sent[i]))])
  {
    hide NonceOf;
    var r := ClientLog(l, sent)[i];
    assert l.aead.open(r.nonce, r.aad, l.aead.seal(r.nonce, r.aad, r.plaintext)) == Some(r.plaintext);
  }

  /** The run on the client's own frames, all delivered, once and in order. */
  function FaithfulRun(l: Link, sent: seq<Payload>): Turn {
    Pump(Inbound(l), Faithful(SealAll(l, sent)), |sent|, true)
  }

  /** Faithful delivery forwards exactly what the client sealed, if and only if every message
      fits under the frame cap and every text is UTF-8; otherwise exactly the messages before
      the first that does not. */
  lemma {:induction false} FaithfulDelivery(l: Link, sent: seq<Payload>, j: nat)
    requires Usable(l)
    requires j <= |sent| < U64_LIMIT
    requires Correct(l.aead, ClientLog(l, sent))
    requires forall i :: 0 <= i < j ==> Deliverable(l, sent[i])
    requires j < |sent| ==> !Deliverable(l, sent[j])
    ensures Forwarded(FaithfulRun(l, sent).wrote) == sent[..j]
    ensures FaithfulRun(l, sent).end.None? <==> j == |sent|
  {
    hide Passes, Refused, Deliverable, SealAll, Correct, Faithful, ClientLog;
    forall i | 0 <= i < j
      ensures Passes(Inbound(l), SealAll(l, sent), i, sent[i])
    {
      SealedFramePasses(l, sent, i);
    }
    if j == |sent| {
      PassingPrefix(Inbound(l), SealAll(l, sent), sent, j);
    } else {
      SealedFramePasses(l, sent, j);
      RefusedEnds(Inbound(l), SealAll(l, sent), sent, j);
    }
  }

  // ----- what can be forwarded at all

  /** What the loop forwards of these events. */
  function ForwardedBy(l: Link, events: seq<Event>): seq<Payload> {
    Forwarded(Pump(Inbound(l), events, |events|, true).wrote)
  }

  /** `idx` picks messages of `sent`, in order and each at most once, all of them deliverable. */
  ghost predicate Chooses(l: Link, idx: seq<nat>, sent: seq<Payload>) {
    && (forall k :: 0 <= k < |idx| ==> idx[k] < |sent| && Deliverable(l, sent[idx[k]]))
    && (forall j, k :: 0 <= j < k < |idx| ==> idx[j] < idx[k])
  }

  function Chosen<T>(idx: seq<nat>, xs: seq<T>): (ys: seq<T>)
    requires forall k :: 0 <= k < |idx| ==> idx[k] < |xs|
    ensures |ys| == |idx|
  {
    seq(|idx|, k requires 0 <= k < |idx| => xs[idx[k]])
  }

  /** A sealed frame passes whenever the floor is below its number. */
  lemma {:induction false} FrameAbovePasses(l: Link, sent: seq<Payload>, i: nat, last: nat)
    requires Usable(l)
    requires last <= i < |sent| < U64_LIMIT
    requires Correct(l.aead, ClientLog(l, sent))
    requires Deliverable(l, sent[i])
    ensures TurnOf(Inbound(l), Event(Frame(SealAll(l, sent)[i]), true), last, true) == Turn([App(sent[i])], i + 1, None)
  {
    hide Decode, SealedFrame, NonceOf;
    LoggedAlone(l, sent, i);
    SealedFrameLength(l, i + 1, sent[i]);
    DecodeSealed(l, i + 1, sent[i], last);
  }

  /** A network that delivers the chosen frames and drops the others. */
  lemma {:induction false} ChosenDelivered(l: Link, sent: seq<Payload>, idx: seq<nat>, k: nat)
    requires Usable(l)
    requires k <= |idx| && |sent| < U64_LIMIT
    requires Correct(l.aead, ClientLog(l, sent))
    requires Chooses(l, idx, sent)
    ensures var t := Pump(Inbound(l), Faithful(Chosen(idx, SealAll(l, sent))), k, true);
            && t.end.None? && Forwarded(t.wrote) == Chosen(idx, sent)[..k]
            && t.floor == if k == 0 then 0 else idx[k - 1] + 1
    decreases k
  {
    hide TurnOf, Correct, ClientLog, Usable, Deliverable, SealAll, Inbound, Pump, Forwarded;
    if k == 0 {
      PumpStarts(Inbound(l), Faithful(Chosen(idx, SealAll(l, sent))));
    } else {
      PumpGoesOn(Inbound(l), Faithful(Chosen(idx, SealAll(l, sent))), k);
      ChosenDelivered(l, sent, idx, k - 1);
      var events, p := Faithful(Chosen(idx, SealAll(l, sent))), sent[idx[k - 1]];
      var t := Pump(Inbound(l), events, k - 1, true);
      assert events[k - 1] == Event(Frame(SealAll(l, sent)[idx[k - 1]]), true);
      FrameAbovePasses(l, sent, idx[k - 1], t.floor);
      ForwardedAppend(t.wrote, App(p));
      PrefixAppend(Chosen(idx, sent), k - 1);
    }
  }

  /** What one turn forwards is deliverable. */
  lemma {:induction false} TurnDeliverable(l: Link, e: Event, sent: seq<Payload>, last: nat)
    requires Usable(l) && |sent| < U64_LIMIT
    requires Authentic(l.aead, ClientLog(l, sent))
    ensures forall p :: App(p) in TurnOf(Inbound(l), e, last, true).wrote ==> Deliverable(l, p)
  {
    hide Usable, Authentic, ClientLog, Decode, Readable, SealedFrame;
    if e.item.Frame? && Decode(l, e.item.data, last).0.Ok? {
      var c, p := Decode(l, e.item.data, last).1, Decode(l, e.item.data, last).0.value;
      DecodedWasSent(l, sent, e.item.data, last);
      SealedFrameLength(l, c, p);
    }
  }

  lemma {:induction false} ForwardedDeliverable(l: Link, events: seq<Event>, sent: seq<Payload>, k: nat)
    requires Usable(l) && k <= |events| && |sent| < U64_LIMIT
    requires Authentic(l.aead, ClientLog(l, sent))
    ensures forall p :: App(p) in Pump(Inbound(l), events, k, true).wrote ==> Deliverable(l, p)
    decreases k
  {
    hide Usable, Authentic, ClientLog, Deliverable, TurnOf, Inbound;
    if k > 0 {
      ForwardedDeliverable(l, events, sent, k - 1);
      TurnDeliverable(l, events[k - 1], sent, Pump(Inbound(l), events, k - 1, true).floor);
    }
  }

  lemma {:induction false} ForwardedHas(out: seq<Outgoing>, k: nat)
    requires k < |Forwarded(out)|
    ensures App(Forwarded(out)[k]) in out
    decreases |out|
  {
    var init, last := out[..|out| - 1], out[|out| - 1];
    if k < |Forwarded(init)| {
      ForwardedHas(init, k);
    }
  }

  /** What the bridge forwards on one network or another: exactly the in-order choices of
      deliverable messages the client sealed. */
  lemma {:induction false} ForwardableExactly(l: Link, sent: seq<Payload>, xs: seq<Payload>)
    requires Usable(l) && |sent| < U64_LIMIT
    requires Correct(l.aead, ClientLog(l, sent)) && Authentic(l.aead, ClientLog(l, sent))
    ensures (exists events :: ForwardedBy(l, events) == xs)
            <==> exists idx :: Chooses(l, idx, sent) && xs == Chosen(idx, sent)
  {
    hide Usable, Correct, Authentic, ClientLog, Deliverable, Pump, SealAll;
    if events :| ForwardedBy(l, events) == xs {
      var idx := ForwardedIsChosen(l, sent, events);
    }
    if idx :| Chooses(l, idx, sent) && xs == Chosen(idx, sent) {
      ChosenDelivered(l, sent, idx, |idx|);
      assert Chosen(idx, sent)[..|idx|] == xs;
      assert ForwardedBy(l, Faithful(Chosen(idx, SealAll(l, sent)))) == xs;
    }
  }

  lemma {:induction false} ForwardedIsChosen(l: Link, sent: seq<Payload>, events: seq<Event>) returns (idx: seq<nat>)
    requires Usable(l) && |sent| < U64_LIMIT
    requires Authentic(l.aead, ClientLog(l, sent))
    ensures Chooses(l, idx, sent) && ForwardedBy(l, events) == Chosen(idx, sent)
  {
    hide Usable, Authentic, ClientLog, Deliverable, Pump, Forwarded;
    var out := Pump(Inbound(l), events, |events|, true).wrote;
    ForwardedWasSent(l, events, sent);
    idx :| Picks(idx, Forwarded(out), sent);
    ForwardedDeliverable(l, events, sent, |events|);
    forall k | 0 <= k < |idx|
      ensures Deliverable(l, sent[idx[k]])
    {
      ForwardedHas(out, k);
    }
    assert Forwarded(out) == Chosen(idx, sent);
  }

  // ----- several bridges of one session

  /** The positions of the deliverable messages among the first `k`. */
  function DeliverableAt(l: Link, sent: seq<Payload>, k: nat): (at: seq<nat>)
    requires k <= |sent|
    ensures forall a :: 0 <= a < |at| ==> at[a] < k && Deliverable(l, sent[at[a]])
    ensures forall a, b :: 0 <= a < b < |at| ==> at[a] < at[b]
    ensures forall i :: 0 <= i < k && Deliverable(l, sent[i]) ==> i in at
  {
    if k == 0 then []
    else DeliverableAt(l, sent, k - 1) + (if Deliverable(l, sent[k - 1]) then [k - 1] else [])
  }

  /** A choice cannot run ahead of choosing everything. */
  lemma {:induction false} ChoiceIsBehind(l: Link, sent: seq<Payload>, idx: seq<nat>, k: nat)
    requires Chooses(l, idx, sent) && k < |idx|
    ensures k < |DeliverableAt(l, sent, |sent|)| && DeliverableAt(l, sent, |sent|)[k] <= idx[k]
  {
    hide Deliverable, DeliverableAt;
    var at := DeliverableAt(l, sent, |sent|);
    if k > 0 {
      ChoiceIsBehind(l, sent, idx, k - 1);
      assert idx[k - 1] < idx[k];
    }
    assert forall n :: 0 <= n < k ==> at[n] <= at[k - 1] < idx[k];
    assert idx[k] in at;
    var m :| 0 <= m < |at| && at[m] == idx[k];
    assert k <= m;
  }

  /** A bridge starts from counter zero, also when the session has had one before. Over two bridges
      of one session messages stay in order and unrepeated on every network if and only if nothing
      the client sealed can be delivered at all: the promise is one bridge's. */
  lemma {:induction false} TwoBridgesExactly(l: Link, sent: seq<Payload>)
    requires Usable(l) && |sent| < U64_LIMIT
    requires Correct(l.aead, ClientLog(l, sent)) && Authentic(l.aead, ClientLog(l, sent))
    ensures (forall first, second :: Subsequence(ForwardedBy(l, first) + ForwardedBy(l, second), sent))
            <==> forall i :: 0 <= i < |sent| ==> !Deliverable(l, sent[i])
  {
    hide Usable, Correct, Authentic, ClientLog, Deliverable, ForwardedBy, Subsequence, DeliverableAt;
    var at := DeliverableAt(l, sent, |sent|);
    if at == [] {
      forall first, second
        ensures Subsequence(ForwardedBy(l, first) + ForwardedBy(l, second), sent)
      {
        NothingForwarded(l, sent, first);
        NothingForwarded(l, sent, second);
        EmptySubsequence(sent);
      }
    } else {
      assert at[0] < |sent|;
      var events := AllDelivered(l, sent);
      TwiceIsTooMuch(l, sent);
    }
  }

  lemma {:induction false} EmptySubsequence(sent: seq<Payload>)
    ensures Subsequence([] + [], sent)
  {
    var none: seq<Payload> := [];
    assert Picks([], none + none, sent);
  }

  lemma {:induction false} NothingForwarded(l: Link, sent: seq<Payload>, events: seq<Event>)
    requires Usable(l) && |sent| < U64_LIMIT
    requires Authentic(l.aead, ClientLog(l, sent))
    requires DeliverableAt(l, sent, |sent|) == []
    ensures ForwardedBy(l, events) == []
  {
    hide Usable, Authentic, ClientLog, Deliverable, ForwardedBy, DeliverableAt;
    var idx := ForwardedIsChosen(l, sent, events);
    if idx != [] {
      ChoiceIsBehind(l, sent, idx, 0);
    }
  }

  /** A network that delivers all that can be delivered. */
  lemma {:induction false} AllDelivered(l: Link, sent: seq<Payload>) returns (events: seq<Event>)
    requires Usable(l) && |sent| < U64_LIMIT
    requires Correct(l.aead, ClientLog(l, sent))
    ensures ForwardedBy(l, events) == Chosen(DeliverableAt(l, sent, |sent|), sent)
  {
    hide Usable, Correct, ClientLog, Deliverable, Pump, SealAll, DeliverableAt;
    var at := DeliverableAt(l, sent, |sent|);
    ChosenDelivered(l, sent, at, |at|);
    assert Chosen(at, sent)[..|at|] == Chosen(at, sent);
    events := Faithful(Chosen(at, SealAll(l, sent)));
  }

  lemma {:induction false} TwiceIsTooMuch(l: Link, sent: seq<Payload>)
    requires DeliverableAt(l, sent, |sent|) != []
    ensures var all := Chosen(DeliverableAt(l, sent, |sent|), sent); !Subsequence(all + all, sent)
  {
    hide Deliverable, DeliverableAt;
    var at := DeliverableAt(l, sent, |sent|);
    var all := Chosen(at, sent);
    if Subsequence(all + all, sent) {
      var idx :| Picks(idx, all + all, sent);
      forall k | 0 <= k < |idx|
        ensures Deliverable(l, sent[idx[k]])
      {
        assert (all + all)[k] == sent[at[if k < |at| then k else k - |at|]];
      }
      ChoiceIsBehind(l, sent, idx, |at|);
    }
  }

  // ----- upstream to client

  /** One item read from the upstream WebSocket. */
  datatype FromUpstream =
    | Message(payload: Payload)
    | UpPing(data: seq<Byte>)
    | UpPong(data: seq<Byte>)
    | UpClose
    | RawFrame
    | UpRecvError

  /** What is written to the client. */
  datatype ToClient =
    | SealedOut(frame: seq<Byte>)
    | ClientPing(data: seq<Byte>)
    | ClientPong(data: seq<Byte>)
    | ClientClose

  datatype UpEvent = UpEvent(item: FromUpstream, sendOk: bool)

  /** The effect of some turns: the messages sealed and delivered, and how the loop ended. */
  datatype Relay = Relay(sealed: seq<Payload>, end: Option<PumpEnd>)

  /** The turn of a loop whose key last used number `counter`. */
  function RelayOf(e: UpEvent, counter: nat): Relay {
    match e.item
    case UpRecvError => Relay([], Some(ReadFailed))
    case UpClose => Relay([], Some(Finished))
    case RawFrame => Relay([], None)
    case UpPing(_) => Relay([], if e.sendOk then None else Some(SendFailed))
    case UpPong(_) => Relay([], if e.sendOk then None else Some(SendFailed))
    case Message(p) =>
      if |p.bytes| > MAX_WS_FRAME then Relay([], Some(OverCap))
      else if counter + 1 == U64_LIMIT then Relay([], Some(KeySpent))
      else if !e.sendOk then Relay([], Some(SendFailed))
      else Relay([p], None)
  }

  /** The loop after the first `k` events, on a fresh key. */
  function Relayed(events: seq<UpEvent>, k: nat): Relay
    requires k <= |events|
  {
    if k == 0 then Relay([], None)
    else
      var r := Relayed(events, k - 1);
      if r.end.Some? then r
      else
        var u := RelayOf(events[k - 1], |r.sealed|);
        Relay(r.sealed + u.sealed, u.end)
  }

  lemma {:induction false} RelayStopped(events: seq<UpEvent>, i: nat, k: nat)
    requires i <= k <= |events|
    requires Relayed(events, i).end.Some?
    ensures Relayed(events, k) == Relayed(events, i)
    decreases k
  {
    if i < k {
      RelayStopped(events, i, k - 1);
    }
  }

  /** The sealed frames among the writes. */
  function Frames(out: seq<ToClient>): seq<seq<Byte>> {
    if out == [] then []
    else
      var last := out[|out| - 1];
      Frames(out[..|out| - 1]) + (if last.SealedOut? then [last.frame] else [])
  }

  lemma {:induction false} FramesAppend(out: seq<ToClient>, m: ToClient)
    ensures Frames(out + [m]) == Frames(out) + (if m.SealedOut? then [m.frame] else [])
  {
    assert (out + [m])[..|out|] == out;
  }

  lemma {:induction false} SealAllAppend(l: Link, sent: seq<Payload>, p: Payload)
    ensures SealAll(l, sent + [p]) == SealAll(l, sent) + [SealedFrame(l, |sent| + 1, p)]
  {
  }

  /** The write of one turn, on a key that last used number `counter`. */
  function RelayWrite(e: UpEvent, l: Link, counter: nat): Option<ToClient> {
    if !e.sendOk then None
    else
      match e.item
      case UpPing(d) => Some(ClientPing(d))
      case UpPong(d) => Some(ClientPong(d))
      case UpClose => Some(ClientClose)
      case Message(p) =>
        if |p.bytes| > MAX_WS_FRAME || counter + 1 == U64_LIMIT then None
        else Some(SealedOut(SealedFrame(l, counter + 1, p)))
      case _ => None
  }

  /** The writes of the loop over the first `k` events, on a fresh key. */
  function RelayedOut(l: Link, events: seq<UpEvent>, k: nat): seq<ToClient>
    requires k <= |events|
  {
    if k == 0 then []
    else
      var r := Relayed(events, k - 1);
      RelayedOut(l, events, k - 1)
      + if r.end.Some? then [] else Written(RelayWrite(events[k - 1], l, |r.sealed|))
  }

  function Written<T>(w: Option<T>): seq<T> {
    if w.Some? then [w.value] else []
  }

  /** One turn, carried out on the key. */
  method RelayTurn(key: BoundKey, e: UpEvent) returns (wrote: Option<ToClient>, r: Relay)
    requires key.Valid()
    modifies key`counter
    ensures key.Valid()
    ensures r == RelayOf(e, old(key.counter))
    ensures r.end.None? ==> key.counter == old(key.counter) + |r.sealed|
    ensures wrote == RelayWrite(e, key.link, old(key.counter))
  {
    wrote := None;
    match e.item {
      case UpRecvError => r := Relay([], Some(ReadFailed));
      case RawFrame => r := Relay([], None);
      case UpPing(d) =>
        if e.sendOk {
          wrote, r := Some(ClientPing(d)), Relay([], None);
        } else {
          r := Relay([], Some(SendFailed));
        }
      case UpPong(d) =>
        if e.sendOk {
          wrote, r := Some(ClientPong(d)), Relay([], None);
        } else {
          r := Relay([], Some(SendFailed));
        }
      case UpClose =>
        wrote, r := if e.sendOk then Some(ClientClose) else None, Relay([], Some(Finished));
      case Message(p) =>
        if |p.bytes| > MAX_WS_FRAME {
          return None, Relay([], Some(OverCap));
        }
        var frame := EncodeOutbound(p, key);
        if frame.None? {
          r := Relay([], Some(KeySpent));
        } else if !e.sendOk {
          r := Relay([], Some(SendFailed));
        } else {
          wrote, r := Some(SealedOut(frame.value)), Relay([p], None);
        }
    }
  }

  /** Writing out one turn keeps the frames written in step with the messages sealed. */
  lemma {:induction false} RelayStep(l: Link, out: seq<ToClient>, e: UpEvent, done: seq<Payload>)
    requires Frames(out) == SealAll(l, done)
    ensures Frames(out + Written(RelayWrite(e, l, |done|))) == SealAll(l, done + RelayOf(e, |done|).sealed)
  {
    hide SealedFrame, SealAll, Frames;
    var w, r := RelayWrite(e, l, |done|), RelayOf(e, |done|);
    if w.Some? {
      FramesAppend(out, w.value);
    } else {
      assert out + [] == out;
    }
    if r.sealed == [] {
      assert done + r.sealed == done;
    } else {
      SealAllAppend(l, done, r.sealed[0]);
    }
  }

  lemma {:induction false} RelayedOutStopped(l: Link, events: seq<UpEvent>, i: nat, k: nat)
    requires i <= k <= |events|
    requires Relayed(events, i).end.Some?
    ensures RelayedOut(l, events, k) == RelayedOut(l, events, i)
    decreases k
  {
    hide RelayWrite, Relayed;
    if i < k {
      RelayedOutStopped(l, events, i, k - 1);
      RelayStopped(events, i, k - 1);
      assert RelayedOut(l, events, k - 1) + [] == RelayedOut(l, events, k - 1);
    }
  }

  lemma {:induction false} RelayStarts(l: Link, events: seq<UpEvent>)
    ensures Relayed(events, 0) == Relay([], None) && RelayedOut(l, events, 0) == []
    ensures Frames([]) == SealAll(l, [])
  {
  }

  lemma {:induction false} RelayGoesOn(events: seq<UpEvent>, k: nat)
    requires 0 < k <= |events|
    ensures var r := Relayed(events, k - 1);
            var u := RelayOf(events[k - 1], |r.sealed|);
            r.end.None? ==> Relayed(events, k) == Relay(r.sealed + u.sealed, u.end)
  {
    hide RelayOf;
  }

  lemma {:induction false} RelayedOutGoesOn(l: Link, events: seq<UpEvent>, k: nat)
    requires 0 < k <= |events| && Relayed(events, k - 1).end.None?
    ensures RelayedOut(l, events, k)
            == RelayedOut(l, events, k - 1) + Written(RelayWrite(events[k - 1], l, |Relayed(events, k - 1).sealed|))
  {
    hide Relayed, RelayWrite;
  }

  /** The upstream-to-client loop, on a fresh key: the frames it writes are, in order and
      numbered from one, exactly the sealings of the messages that precede its end. */
  method UpstreamToClient(key: BoundKey, events: seq<UpEvent>) returns (out: seq<ToClient>, end: PumpEnd)
    requires key.Valid() && key.counter == 0
    modifies key`counter
    ensures key.Valid()
    ensures out == RelayedOut(key.link, events, |events|)
    ensures Frames(out) == SealAll(key.link, Relayed(events, |events|).sealed)
    ensures end == Relayed(events, |events|).end.GetOr(Finished)
  {
    hide RelayWrite, RelayOf, Relayed, RelayedOut, Frames, SealAll;
    out := [];
    RelayStarts(key.link, events);
    ghost var done: seq<Payload> := [];
    for i := 0 to |events|
      invariant key.Valid() && key.counter == |done|
      invariant Relayed(events, i) == Relay(done, None)
      invariant out == RelayedOut(key.link, events, i)
      invariant Frames(out) == SealAll(key.link, done)
    {
      var wrote, r := RelayTurn(key, events[i]);
      RelayGoesOn(events, i + 1);
      RelayedOutGoesOn(key.link, events, i + 1);
      RelayStep(key.link, out, events[i], done);
      out := if wrote.Some? then out + [wrote.value] else out + [];
      done := done + r.sealed;
      if r.end.Some? {
        RelayStopped(events, i + 1, |events|);
        RelayedOutStopped(key.link, events, i + 1, |events|);
        return out, r.end.value;
      }
    }
    end := Finished;
  }

  /** A client that mirrors the inbound decoder reads back every frame of that loop, in order. */
  lemma {:induction false} MirrorReads(l: Link, sent: seq<Payload>, k: nat)
    requires Usable(l)
    requires k < |sent| < U64_LIMIT
    requires Correct(l.aead, ClientLog(l, sent))
    requires Readable(l, sent[k])
    ensures Decode(l, SealAll(l, sent)[k], k) == (Ok(sent[k]), k + 1)
  {
    hide Decode, SealedFrame, NonceOf;
    LoggedAlone(l, sent, k);
    DecodeSealed(l, k + 1, sent[k], k);
  }

  /** The messages among the first `k` events. */
  function MessagesOf(events: seq<UpEvent>, k: nat): seq<Payload>
    requires k <= |events|
  {
    if k == 0 then []
    else
      var item := events[k - 1].item;
      MessagesOf(events, k - 1) + (if item.Message? then [item.payload] else [])
  }

  /** Whether an event ends the loop after `n` messages: a read error or a close, anything that
      cannot be written, a message over the cap or beyond the last number of the key. */
  predicate EndsRelay(e: UpEvent, n: nat) {
    || e.item.UpRecvError? || e.item.UpClose?
    || (!e.sendOk && (e.item.UpPing? || e.item.UpPong? || e.item.Message?))
    || (e.item.Message? && (|e.item.payload.bytes| > 16 * 1024 * 1024 || n + 1 == U64_LIMIT))
  }

  /** `j` events go on, and the next, if there is one, ends the loop. */
  predicate EndsAt(events: seq<UpEvent>, j: nat) {
    && j <= |events|
    && (forall i :: 0 <= i < j ==> !EndsRelay(events[i], |MessagesOf(events, i)|))
    && (j < |events| ==> EndsRelay(events[j], |MessagesOf(events, j)|))
  }

  lemma {:induction false} RelayOfEnds(e: UpEvent, n: nat)
    ensures RelayOf(e, n).end.Some? <==> EndsRelay(e, n)
    ensures RelayOf(e, n).sealed == if !EndsRelay(e, n) && e.item.Message? then [e.item.payload] else []
  {
  }

  lemma {:induction false} RelayedSoFar(events: seq<UpEvent>, j: nat, k: nat)
    requires EndsAt(events, j) && k <= j
    ensures Relayed(events, k) == Relay(MessagesOf(events, k), None)
    decreases k
  {
    if k > 0 {
      hide RelayOf, Relayed, EndsRelay;
      RelayedSoFar(events, j, k - 1);
      RelayGoesOn(events, k);
      RelayOfEnds(events[k - 1], |MessagesOf(events, k - 1)|);
      assert !EndsRelay(events[k - 1], |MessagesOf(events, k - 1)|);
    }
  }

  lemma {:induction false} MessagesFit(events: seq<UpEvent>, j: nat, k: nat)
    requires EndsAt(events, j) && k <= j
    ensures |MessagesOf(events, k)| < U64_LIMIT
    decreases k
  {
    if k > 0 {
      MessagesFit(events, j, k - 1);
      assert !EndsRelay(events[k - 1], |MessagesOf(events, k - 1)|);
    }
  }

  /** The loop seals exactly the upstream messages before its first ending event. */
  lemma {:induction false} RelaysMessages(events: seq<UpEvent>, j: nat)
    requires EndsAt(events, j)
    ensures Relayed(events, |events|).sealed == MessagesOf(events, j)
    ensures Relayed(events, |events|).end.Some? <==> j < |events|
  {
    hide RelayOf, Relayed, EndsRelay, MessagesOf;
    RelayedSoFar(events, j, j);
    if j < |events| {
      RelayGoesOn(events, j + 1);
      RelayOfEnds(events[j], |MessagesOf(events, j)|);
      assert MessagesOf(events, j) + [] == MessagesOf(events, j);
      RelayStopped(events, j + 1, |events|);
    }
  }

  /** End to end: a client that runs the inbound loop on the frames of this one gets exactly the
      upstream messages before the first event that ends the loop, up to the first that is too
      large for its frame cap or not readable. */
  lemma {:induction false} RelayRecovered(l: Link, events: seq<UpEvent>, j: nat, d: nat)
    requires Usable(l) && EndsAt(events, j)
    requires Correct(l.aead, ClientLog(l, MessagesOf(events, j)))
    requires d <= |MessagesOf(events, j)|
    requires forall i :: 0 <= i < d ==> Deliverable(l, MessagesOf(events, j)[i])
    requires d < |MessagesOf(events, j)| ==> !Deliverable(l, MessagesOf(events, j)[d])
    ensures var run := FaithfulRun(l, Relayed(events, |events|).sealed);
            && Forwarded(run.wrote) == MessagesOf(events, j)[..d]
            && (run.end.None? <==> d == |MessagesOf(events, j)|)
  {
    hide Usable, Correct, ClientLog, Deliverable, MessagesOf, EndsRelay, Relayed, FaithfulRun;
    RelaysMessages(events, j);
    MessagesFit(events, j, j);
    FaithfulDelivery(l, MessagesOf(events, j), d);
  }

  /** The caps of the two directions disagree: outbound bounds the payload, inbound the frame.
      A payload the outbound loop seals passes a peer's inbound cap exactly when it leaves room
      for the 29 octets of framing. */
  lemma {:induction false} CapsDisagree(l: Link, counter: nat, p: Payload)
    requires Usable(l)
    requires |p.bytes| <= MAX_WS_FRAME
    ensures |SealedFrame(l, counter, p)| <= MAX_WS_FRAME <==> |p.bytes| <= MAX_WS_FRAME - MIN_FRAME
  {
    SealedFrameLength(l, counter, p);
  }
}
