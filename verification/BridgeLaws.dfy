/** What the two pump loops do with every kind of item, said without the loops (src/ws.rs). */
module BridgeLaws {
  import opened Prelude
  import opened Bytes
  import opened Aeads
  import opened WsFrames
  import opened WsBridge

  // ----- client to upstream

  /** The counter floor after the first `k` events, all of which went on: only frames move it. */
  function FloorAt(dec: Decoder, events: seq<Event>, k: nat): nat
    requires k <= |events|
  {
    if k == 0 then 0
    else
      var last, item := FloorAt(dec, events, k - 1), events[k - 1].item;
      if item.Frame? then dec(item.data, last).1 else last
  }

  /** Whether an item ends the loop: a read error or a close; a frame over the cap or that does not
      decode; a message, ping or pong that cannot be written. */
  predicate Ends(dec: Decoder, e: Event, floor: nat) {
    || e.item.RecvError? || e.item.Close?
    || (e.item.Frame? && (|e.item.data| > 16 * 1024 * 1024 || dec(e.item.data, floor).0.Err?))
    || (!e.sendOk && (e.item.Frame? || e.item.Ping? || e.item.Pong?))
  }

  /** `j` events go on, and the next, if there is one, ends the loop. */
  predicate PumpEndsAt(dec: Decoder, events: seq<Event>, j: nat) {
    && j <= |events|
    && (forall i :: 0 <= i < j ==> !Ends(dec, events[i], FloorAt(dec, events, i)))
    && (j < |events| ==> Ends(dec, events[j], FloorAt(dec, events, j)))
  }

  /** What is passed on for an item that goes on: the message of a frame, and pings and pongs with
      their data; nothing for plain text. */
  function Pass(dec: Decoder, e: Event, floor: nat): seq<Outgoing> {
    match e.item
    case Frame(d) => if dec(d, floor).0.Ok? then [App(dec(d, floor).0.value)] else []
    case Ping(d) => [OutPing(d)]
    case Pong(d) => [OutPong(d)]
    case _ => []
  }

  function PassedOn(dec: Decoder, events: seq<Event>, k: nat): seq<Outgoing>
    requires k <= |events|
  {
    if k == 0 then []
    else PassedOn(dec, events, k - 1) + Pass(dec, events[k - 1], FloorAt(dec, events, k - 1))
  }

  /** A close is passed on if it can be. */
  function Closing(events: seq<Event>, j: nat): seq<Outgoing>
    requires j <= |events|
  {
    if j < |events| && events[j].item.Close? && events[j].sendOk then [OutClose] else []
  }

  lemma {:induction false} TurnGoesOn(dec: Decoder, e: Event, floor: nat)
    ensures TurnOf(dec, e, floor, true).end.Some? <==> Ends(dec, e, floor)
    ensures TurnOf(dec, e, floor, true).end == Some(Finished) <==> e.item.Close?
    ensures Ends(dec, e, floor) ==>
      TurnOf(dec, e, floor, true).wrote == if e.item.Close? && e.sendOk then [OutClose] else []
    ensures !Ends(dec, e, floor) ==>
      TurnOf(dec, e, floor, true)
      == Turn(Pass(dec, e, floor), if e.item.Frame? then dec(e.item.data, floor).1 else floor, None)
  {
  }

  lemma {:induction false} PumpSoFar(dec: Decoder, events: seq<Event>, j: nat, k: nat)
    requires PumpEndsAt(dec, events, j) && k <= j
    ensures Pump(dec, events, k, true) == Turn(PassedOn(dec, events, k), FloorAt(dec, events, k), None)
    decreases k
  {
    hide TurnOf, Ends, Pump, Pass;
    if k == 0 {
      PumpStarts(dec, events);
    } else {
      PumpSoFar(dec, events, j, k - 1);
      PumpGoesOn(dec, events, k);
      assert !Ends(dec, events[k - 1], FloorAt(dec, events, k - 1));
      TurnGoesOn(dec, events[k - 1], FloorAt(dec, events, k - 1));
    }
  }

  /** The loop on any events: it passes on, in order, what the items before its end call for, and a
      close that ends it. It ends as finished exactly at a close. */
  lemma {:induction false} PumpExactly(dec: Decoder, events: seq<Event>, j: nat)
    requires PumpEndsAt(dec, events, j)
    ensures var t := Pump(dec, events, |events|, true);
            && t.wrote == PassedOn(dec, events, j) + Closing(events, j)
            && (t.end.None? <==> j == |events|)
            && (t.end == Some(Finished) <==> j < |events| && events[j].item.Close?)
            && (t.end.None? ==> t.floor == FloorAt(dec, events, j))
  {
    hide TurnOf, Pump, Ends, PassedOn;
    PumpSoFar(dec, events, j, j);
    if j < |events| {
      PumpGoesOn(dec, events, j + 1);
      TurnGoesOn(dec, events[j], FloorAt(dec, events, j));
      PumpStopped(dec, events, j + 1, |events|, true);
    } else {
      assert PassedOn(dec, events, j) + [] == PassedOn(dec, events, j);
    }
  }

  /** Every run of events has such an end. */
  lemma {:induction false} PumpEnds(dec: Decoder, events: seq<Event>, k: nat) returns (j: nat)
    requires k <= |events|
    requires forall i :: 0 <= i < k ==> !Ends(dec, events[i], FloorAt(dec, events, i))
    ensures PumpEndsAt(dec, events, j)
    decreases |events| - k
  {
    hide Ends, FloorAt;
    if k == |events| || Ends(dec, events[k], FloorAt(dec, events, k)) {
      j := k;
    } else {
      j := PumpEnds(dec, events, k + 1);
    }
  }

  // ----- items that carry no message

  /** An item that carries no message and can be passed on. */
  predicate CarriesNothing(e: Event) {
    e.item.PlainText? || (e.sendOk && (e.item.Ping? || e.item.Pong?))
  }

  function Inserted<T>(xs: seq<T>, i: nat, x: T): seq<T>
    requires i <= |xs|
  {
    xs[..i] + [x] + xs[i..]
  }

  lemma {:induction false} PumpPrefix(dec: Decoder, a: seq<Event>, b: seq<Event>, k: nat)
    requires k <= |a| && k <= |b| && a[..k] == b[..k]
    ensures Pump(dec, a, k, true) == Pump(dec, b, k, true)
  {
    hide TurnOf;
    if k > 0 {
      assert a[..k - 1] == a[..k][..k - 1] && b[..k - 1] == b[..k][..k - 1];
      PumpPrefix(dec, a, b, k - 1);
      assert a[k - 1] == a[..k][k - 1] && b[k - 1] == b[..k][k - 1];
    }
  }

  lemma {:induction false} ForwardedConcat(a: seq<Outgoing>, b: seq<Outgoing>)
    ensures Forwarded(a + b) == Forwarded(a) + Forwarded(b)
    decreases |b|
  {
    hide Forwarded;
    if b == [] {
      assert a + b == a;
      ForwardedNone();
    } else {
      var init, last := b[..|b| - 1], b[|b| - 1];
      assert b == init + [last] && a + b == (a + init) + [last];
      ForwardedConcat(a, init);
      ForwardedAppend(init, last);
      ForwardedAppend(a + init, last);
    }
  }

  lemma {:induction false} ForwardedNone()
    ensures Forwarded([]) == []
  {
  }

  /** Alike but for control frames. */
  predicate SameMessages(t: Turn, u: Turn) {
    Forwarded(t.wrote) == Forwarded(u.wrote) && t.floor == u.floor && t.end == u.end
  }

  lemma {:induction false} SameTurn(dec: Decoder, t: Turn, u: Turn, e: Event)
    requires SameMessages(t, u) && t.end.None?
    ensures var w := TurnOf(dec, e, t.floor, true);
            SameMessages(Turn(t.wrote + w.wrote, w.floor, w.end), Turn(u.wrote + w.wrote, w.floor, w.end))
  {
    hide TurnOf, Forwarded;
    var w := TurnOf(dec, e, t.floor, true);
    ForwardedConcat(t.wrote, w.wrote);
    ForwardedConcat(u.wrote, w.wrote);
  }

  lemma {:induction false} NeutralTurn(dec: Decoder, t: Turn, e: Event)
    requires CarriesNothing(e)
    ensures var w := TurnOf(dec, e, t.floor, true);
            w.floor == t.floor && w.end.None? && Forwarded(t.wrote + w.wrote) == Forwarded(t.wrote)
  {
    hide Forwarded;
    var w := TurnOf(dec, e, t.floor, true);
    ForwardedConcat(t.wrote, w.wrote);
    ForwardedNone();
    if w.wrote != [] {
      ForwardedAppend([], w.wrote[0]);
      assert [] + [w.wrote[0]] == w.wrote;
    }
  }

  /** A plain text, ping or pong item, wherever it comes in a run, changes neither the messages
      forwarded nor the counter floor nor how the loop ends. */
  lemma {:induction false} NeutralItem(dec: Decoder, events: seq<Event>, i: nat, e: Event, k: nat)
    requires i <= k <= |events| && CarriesNothing(e)
    ensures SameMessages(Pump(dec, events, k, true), Pump(dec, Inserted(events, i, e), k + 1, true))
    decreases k
  {
    hide TurnOf, Pump, Forwarded;
    var more := Inserted(events, i, e);
    if k == i {
      assert more[..i] == events[..i];
      PumpPrefix(dec, events, more, i);
      var t := Pump(dec, events, i, true);
      if t.end.None? {
        PumpGoesOn(dec, more, i + 1);
        NeutralTurn(dec, t, e);
      } else {
        PumpStopped(dec, more, i, i + 1, true);
      }
    } else {
      NeutralItem(dec, events, i, e, k - 1);
      var t, u := Pump(dec, events, k - 1, true), Pump(dec, more, k, true);
      assert more[k] == events[k - 1];
      if t.end.None? {
        PumpGoesOn(dec, events, k);
        PumpGoesOn(dec, more, k + 1);
        SameTurn(dec, t, u, events[k - 1]);
      } else {
        PumpStopped(dec, events, k - 1, k, true);
        PumpStopped(dec, more, k, k + 1, true);
      }
    }
  }

  // ----- upstream to client

  /** What is passed on to the client for an item that goes on after `n` messages: a message sealed
      under the next number, and pings and pongs with their data. */
  function PassBack(l: Link, e: UpEvent, n: nat): seq<ToClient> {
    match e.item
    case Message(p) => [SealedOut(SealedFrame(l, n + 1, p))]
    case UpPing(d) => [ClientPing(d)]
    case UpPong(d) => [ClientPong(d)]
    case _ => []
  }

  function PassedBack(l: Link, events: seq<UpEvent>, k: nat): seq<ToClient>
    requires k <= |events|
  {
    if k == 0 then []
    else PassedBack(l, events, k - 1) + PassBack(l, events[k - 1], |MessagesOf(events, k - 1)|)
  }

  lemma {:induction false} WriteGoesOn(l: Link, e: UpEvent, n: nat)
    ensures Written(RelayWrite(e, l, n))
            == if !EndsRelay(e, n) then PassBack(l, e, n) else if e.item.UpClose? && e.sendOk then [ClientClose] else []
    ensures RelayOf(e, n).end.Some? <==> EndsRelay(e, n)
    ensures RelayOf(e, n).end == Some(Finished) <==> e.item.UpClose?
  {
    hide SealedFrame;
  }

  lemma {:induction false} BackSoFar(l: Link, events: seq<UpEvent>, j: nat, k: nat)
    requires EndsAt(events, j) && k <= j
    ensures RelayedOut(l, events, k) == PassedBack(l, events, k)
    decreases k
  {
    hide RelayWrite, EndsRelay, PassBack, Relayed, MessagesOf;
    if k > 0 {
      BackSoFar(l, events, j, k - 1);
      RelayedSoFar(events, j, k - 1);
      assert !EndsRelay(events[k - 1], |MessagesOf(events, k - 1)|);
      WriteGoesOn(l, events[k - 1], |MessagesOf(events, k - 1)|);
    }
  }

  /** The loop on any events: it passes on, in order, what the items before its end call for, and a
      close that ends it. It ends as finished exactly at a close. */
  lemma {:induction false} RelayExactly(l: Link, events: seq<UpEvent>, j: nat)
    requires EndsAt(events, j)
    ensures RelayedOut(l, events, |events|)
            == PassedBack(l, events, j)
               + if j < |events| && events[j].item.UpClose? && events[j].sendOk then [ClientClose] else []
    ensures Relayed(events, |events|).end == Some(Finished) <==> j < |events| && events[j].item.UpClose?
  {
    hide RelayWrite, RelayOf, EndsRelay, MessagesOf, PassedBack, Relayed, RelayedOut;
    BackSoFar(l, events, j, j);
    RelayedSoFar(events, j, j);
    if j < |events| {
      RelayGoesOn(events, j + 1);
      RelayedOutGoesOn(l, events, j + 1);
      WriteGoesOn(l, events[j], |MessagesOf(events, j)|);
      RelayStopped(events, j + 1, |events|);
      RelayedOutStopped(l, events, j + 1, |events|);
    } else {
      assert PassedBack(l, events, j) + [] == PassedBack(l, events, j);
    }
  }
}
