/** The upstream counters and the latency histogram (src/metrics.rs), as the request handlers
    update them (src/proxy.rs). */
module Metrics {

  /** Upper bounds of the buckets, in seconds. */
  const BOUNDS: seq<real> := [0.005, 0.01, 0.025, 0.05, 0.1, 0.25, 0.5, 1.0, 2.5, 5.0, 10.0]

  const BUCKETS: nat := 11

  /** A latency to the nearest microsecond. */
  function Micros(secs: real): int {
    (secs * 1000000.0 + 0.5).Floor
  }

  lemma {:induction false} MicrosNearest(secs: real)
    ensures -0.5 < Micros(secs) as real - secs * 1000000.0 <= 0.5
  {
  }

  class UpstreamMetrics {
    var requests: nat
    var errors: nat
    const buckets: array<nat>
    var count: nat
    var sumMicros: int

    constructor ()
      ensures requests == errors == count == 0 && sumMicros == 0 && fresh(buckets)
      ensures buckets[..] == seq(BUCKETS, _ => 0)
    {
      requests, errors, count, sumMicros := 0, 0, 0, 0;
      buckets := new nat[BUCKETS](_ => 0);
    }

    /** One observation: every bucket whose bound it does not exceed, the count and the sum. */
    method ObserveUpstreamLatency(secs: real)
      requires buckets.Length == BUCKETS
      modifies this`count, this`sumMicros, buckets
      ensures forall b :: 0 <= b < BUCKETS ==> buckets[b] == old(buckets[b]) + (if secs <= BOUNDS[b] then 1 else 0)
      ensures count == old(count) + 1 && sumMicros == old(sumMicros) + Micros(secs)
    {
      for i := 0 to BUCKETS
        invariant count == old(count) && sumMicros == old(sumMicros)
        invariant forall b :: 0 <= b < BUCKETS ==>
          buckets[b] == old(buckets[b]) + (if b < i && secs <= BOUNDS[b] then 1 else 0)
      {
        if secs <= BOUNDS[i] {
          buckets[i] := buckets[i] + 1;
        }
      }
      count := count + 1;
      sumMicros := sumMicros + Micros(secs);
    }
  }

  // ----- handlers

  /** How far a handler is: its request counted and sent; about to test bucket `next`; counted in
      the histogram; summed; and, if the upstream failed, counted as an error. A handler can be
      dropped only while it waits for the upstream. */
  datatype Handler =
    | Sent
    | Cancelled
    | Observing(secs: real, failed: bool, next: nat)
    | Counted(secs: real, failed: bool)
    | Summed(secs: real, failed: bool)
    | Errored(secs: real)

  datatype Counters = Counters(requests: nat, errors: nat, buckets: seq<nat>, count: nat, sumMicros: int)

  /** All handlers there have been, by number. */
  datatype State = State(counters: Counters, handlers: seq<Handler>)

  const INITIAL := State(Counters(0, 0, [0, 0, 0, 0, 0, 0, 0, 0, 0, 0, 0], 0, 0), [])

  datatype Action = Start | Cancel(h: nat) | Answer(h: nat, secs: real, failed: bool) | Go(h: nat)

  /** One atomic step of an observation, or of the error count after it. */
  function GoOn(c: Counters, x: Handler): (Counters, Handler) {
    match x
    case Observing(secs, failed, i) =>
      if i < BUCKETS && i < |c.buckets| then
        (if secs <= BOUNDS[i] then c.(buckets := c.buckets[i := c.buckets[i] + 1]) else c,
         Observing(secs, failed, i + 1))
      else (c.(count := c.count + 1), Counted(secs, failed))
    case Counted(secs, failed) => (c.(sumMicros := c.sumMicros + Micros(secs)), Summed(secs, failed))
    case Summed(secs, true) => (c.(errors := c.errors + 1), Errored(secs))
    case _ => (c, x)
  }

  /** Actions that cannot happen do nothing. */
  function Next(s: State, a: Action): State {
    match a
    case Start => State(s.counters.(requests := s.counters.requests + 1), s.handlers + [Sent])
    case Cancel(h) =>
      if h < |s.handlers| && s.handlers[h].Sent? then s.(handlers := s.handlers[h := Cancelled]) else s
    case Answer(h, secs, failed) =>
      if h < |s.handlers| && s.handlers[h].Sent? then s.(handlers := s.handlers[h := Observing(secs, failed, 0)])
      else s
    case Go(h) =>
      if h < |s.handlers| then
        var (c, x) := GoOn(s.counters, s.handlers[h]);
        State(c, s.handlers[h := x])
      else s
  }

  function After(acts: seq<Action>, k: nat): State
    requires k <= |acts|
  {
    if k == 0 then INITIAL else Next(After(acts, k - 1), acts[k - 1])
  }

  /** `n` steps of one handler with nothing in between. */
  function Alone(c: Counters, x: Handler, n: nat): (Counters, Handler) {
    if n == 0 then (c, x)
    else
      var (d, y) := Alone(c, x, n - 1);
      GoOn(d, y)
  }

  lemma {:induction false} AloneBuckets(c: Counters, secs: real, failed: bool, n: nat)
    requires n <= BUCKETS == |c.buckets|
    ensures var (d, y) := Alone(c, Observing(secs, failed, 0), n);
            && y == Observing(secs, failed, n)
            && d == c.(buckets := d.buckets) && |d.buckets| == BUCKETS
            && forall b :: 0 <= b < BUCKETS ==>
                 d.buckets[b] == c.buckets[b] + (if b < n && secs <= BOUNDS[b] then 1 else 0)
  {
    if n > 0 {
      AloneBuckets(c, secs, failed, n - 1);
    }
  }

  /** The steps of one handler, undisturbed, do to the counters what `ObserveUpstreamLatency`
      does. */
  lemma {:induction false} AloneObserves(c: Counters, secs: real, failed: bool)
    requires |c.buckets| == BUCKETS
    ensures var (d, y) := Alone(c, Observing(secs, failed, 0), BUCKETS + 2);
            && y == Summed(secs, failed)
            && d.count == c.count + 1 && d.sumMicros == c.sumMicros + Micros(secs)
            && d.requests == c.requests && d.errors == c.errors && |d.buckets| == BUCKETS
            && forall b :: 0 <= b < BUCKETS ==>
                 d.buckets[b] == c.buckets[b] + (if secs <= BOUNDS[b] then 1 else 0)
  {
    var x := Observing(secs, failed, 0);
    AloneBuckets(c, secs, failed, BUCKETS);
    AloneStep(c, x, BUCKETS);
    AloneStep(c, x, BUCKETS + 1);
    hide Alone;
  }

  lemma {:induction false} AloneStep(c: Counters, x: Handler, n: nat)
    ensures var (d, y) := Alone(c, x, n); Alone(c, x, n + 1) == GoOn(d, y)
  {
    hide GoOn;
  }

  // ----- what the counters count

  /** A kind of upstream reply: any, failed ones, and those within the bound of a bucket. */
  datatype Ask = AnyReply | FailedReply | Within(b: nat)

  predicate Fits(ask: Ask, secs: real, failed: bool) {
    match ask
    case AnyReply => true
    case FailedReply => failed
    case Within(b) => b < BUCKETS && secs <= BOUNDS[b]
  }

  datatype Query =
    | InFlight
    | Dropped
    | Observed
    | Failures
    | Bumped(b: nat)
    | AtMost(b: nat)
    | Midway(b: nat, d: nat)
    | Between(b: nat, d: nat)
    | Uncounted(b: nat)
    | Slower(b: nat)
    | Replied(ask: Ask)

  /** Whether a handler answers a query. `Bumped(b)`: it has incremented bucket `b`. `AtMost(b)`:
      its latency is observed and within the bound of bucket `b`. `Midway(b, d)`: its observation is
      part done, past bucket `b`, which it incremented, and not past `d`. `Between(b, d)`: it has
      incremented `d` and is too slow for `b`. `Uncounted(b)`: part done, with `b` incremented and
      the count still to come. `Slower(b)`: observed, and too slow for `b`.
      `Replied(ask)`: its upstream has replied in this way. */
  predicate Holds(q: Query, x: Handler) {
    match q
    case InFlight => x.Sent? || x.Observing?
    case Dropped => x.Cancelled?
    case Observed => x.Counted? || x.Summed? || x.Errored?
    case Failures => x.Errored?
    case Bumped(b) => !x.Sent? && !x.Cancelled? && (x.Observing? ==> b < x.next) && b < BUCKETS && x.secs <= BOUNDS[b]
    case AtMost(b) => (x.Counted? || x.Summed? || x.Errored?) && b < BUCKETS && x.secs <= BOUNDS[b]
    case Midway(b, d) => x.Observing? && b < x.next <= d && b < BUCKETS && x.secs <= BOUNDS[b]
    case Between(b, d) =>
      && !x.Sent? && !x.Cancelled? && (x.Observing? ==> d < x.next)
      && b < BUCKETS && d < BUCKETS && BOUNDS[b] < x.secs <= BOUNDS[d]
    case Uncounted(b) => x.Observing? && b < x.next && b < BUCKETS && x.secs <= BOUNDS[b]
    case Replied(ask) => !x.Sent? && !x.Cancelled? && Fits(ask, x.secs, x.Errored? || x.failed)
    case Slower(b) => (x.Counted? || x.Summed? || x.Errored?) && b < BUCKETS && BOUNDS[b] < x.secs
  }

  function One(q: Query, x: Handler): nat {
    if Holds(q, x) then 1 else 0
  }

  function Count(hs: seq<Handler>, q: Query, k: nat): nat
    requires k <= |hs|
  {
    if k == 0 then 0 else Count(hs, q, k - 1) + One(q, hs[k - 1])
  }

  function All(s: State, q: Query): nat {
    Count(s.handlers, q, |s.handlers|)
  }

  function SumOf(hs: seq<Handler>, k: nat): int
    requires k <= |hs|
  {
    if k == 0 then 0 else SumOf(hs, k - 1) + Share(hs[k - 1])
  }

  /** What a handler has added to the sum. */
  function Share(x: Handler): int {
    if x.Summed? || x.Errored? then Micros(x.secs) else 0
  }

  lemma {:induction false} CountUpdate(hs: seq<Handler>, h: nat, x: Handler, q: Query, k: nat)
    requires h < |hs| && k <= |hs|
    ensures Count(hs[h := x], q, k) == Count(hs, q, k) + (if h < k then One(q, x) - One(q, hs[h]) else 0)
  {
    hide One;
    if k > 0 {
      CountUpdate(hs, h, x, q, k - 1);
    }
  }

  lemma {:induction false} CountPrefix(hs: seq<Handler>, x: Handler, q: Query, k: nat)
    requires k <= |hs|
    ensures Count(hs + [x], q, k) == Count(hs, q, k)
  {
    hide One;
    if k > 0 {
      CountPrefix(hs, x, q, k - 1);
    }
  }

  lemma {:induction false} SumUpdate(hs: seq<Handler>, h: nat, x: Handler, k: nat)
    requires h < |hs| && k <= |hs|
    ensures SumOf(hs[h := x], k) == SumOf(hs, k) + (if h < k then Share(x) - Share(hs[h]) else 0)
  {
    hide Share;
    if k > 0 {
      SumUpdate(hs, h, x, k - 1);
    }
  }

  lemma {:induction false} SumPrefix(hs: seq<Handler>, x: Handler, k: nat)
    requires k <= |hs|
    ensures SumOf(hs + [x], k) == SumOf(hs, k)
  {
    hide Share;
    if k > 0 {
      SumPrefix(hs, x, k - 1);
    }
  }

  /** Each counter counts the handlers that have bumped it. */
  ghost predicate Inv(s: State) {
    && s.counters.requests == |s.handlers|
    && s.counters.errors == All(s, Failures)
    && s.counters.count == All(s, Observed)
    && |s.counters.buckets| == BUCKETS
    && (forall b :: 0 <= b < BUCKETS ==> s.counters.buckets[b] == All(s, Bumped(b)))
    && s.counters.sumMicros == SumOf(s.handlers, |s.handlers|)
    && forall h :: 0 <= h < |s.handlers| && s.handlers[h].Observing? ==> s.handlers[h].next <= BUCKETS
  }

  lemma {:induction false} AllUpdate(s: State, c: Counters, h: nat, x: Handler, q: Query)
    requires h < |s.handlers|
    ensures All(State(c, s.handlers[h := x]), q) == All(s, q) + One(q, x) - One(q, s.handlers[h])
  {
    CountUpdate(s.handlers, h, x, q, |s.handlers|);
  }

  lemma {:induction false} AllStart(s: State, c: Counters, q: Query)
    ensures All(State(c, s.handlers + [Sent]), q) == All(s, q) + One(q, Sent)
  {
    CountPrefix(s.handlers, Sent, q, |s.handlers|);
  }

  /** A step that moves one handler keeps the invariant if the counters move with it. */
  lemma {:induction false} MoveKeeps(s: State, h: nat, c: Counters, x: Handler)
    requires Inv(s) && h < |s.handlers|
    requires x.Observing? ==> x.next <= BUCKETS
    requires c.requests == s.counters.requests && |c.buckets| == BUCKETS
    requires c.errors == s.counters.errors + One(Failures, x) - One(Failures, s.handlers[h])
    requires c.count == s.counters.count + One(Observed, x) - One(Observed, s.handlers[h])
    requires forall b :: 0 <= b < BUCKETS ==>
      c.buckets[b] == s.counters.buckets[b] + One(Bumped(b), x) - One(Bumped(b), s.handlers[h])
    requires c.sumMicros == s.counters.sumMicros + Share(x) - Share(s.handlers[h])
    ensures Inv(State(c, s.handlers[h := x]))
  {
    hide One, All, Share;
    AllUpdate(s, c, h, x, Failures);
    AllUpdate(s, c, h, x, Observed);
    forall b | 0 <= b < BUCKETS
      ensures c.buckets[b] == All(State(c, s.handlers[h := x]), Bumped(b))
    {
      AllUpdate(s, c, h, x, Bumped(b));
    }
    SumUpdate(s.handlers, h, x, |s.handlers|);
  }

  lemma {:induction false} StartKeeps(s: State)
    requires Inv(s)
    ensures Inv(Next(s, Start))
  {
    hide All;
    var c := s.counters.(requests := s.counters.requests + 1);
    AllStart(s, c, Failures);
    AllStart(s, c, Observed);
    forall b | 0 <= b < BUCKETS
      ensures c.buckets[b] == All(State(c, s.handlers + [Sent]), Bumped(b))
    {
      AllStart(s, c, Bumped(b));
    }
    SumPrefix(s.handlers, Sent, |s.handlers|);
  }

  lemma {:induction false} GoKeeps(s: State, h: nat)
    requires Inv(s)
    ensures Inv(Next(s, Go(h)))
  {
    hide Inv;
    if h < |s.handlers| {
      var (c, x) := GoOn(s.counters, s.handlers[h]);
      GoMoves(s, h);
      MoveKeeps(s, h, c, x);
    }
  }

  lemma {:induction false} GoMoves(s: State, h: nat)
    requires Inv(s) && h < |s.handlers|
    ensures var (c, x) := GoOn(s.counters, s.handlers[h]);
            && (x.Observing? ==> x.next <= BUCKETS)
            && c.requests == s.counters.requests && |c.buckets| == BUCKETS
            && c.errors == s.counters.errors + One(Failures, x) - One(Failures, s.handlers[h])
            && c.count == s.counters.count + One(Observed, x) - One(Observed, s.handlers[h])
            && (forall b :: 0 <= b < BUCKETS ==>
                  c.buckets[b] == s.counters.buckets[b] + One(Bumped(b), x) - One(Bumped(b), s.handlers[h]))
            && c.sumMicros == s.counters.sumMicros + Share(x) - Share(s.handlers[h])
  {
    hide All, SumOf, Micros;
  }

  lemma {:induction false} NextKeeps(s: State, a: Action)
    requires Inv(s)
    ensures Inv(Next(s, a))
  {
    match a
    case Start => StartKeeps(s);
    case Go(h) => GoKeeps(s, h);
    case Cancel(h) =>
      if h < |s.handlers| && s.handlers[h].Sent? {
        MoveKeeps(s, h, s.counters, Cancelled);
      }
    case Answer(h, secs, failed) =>
      if h < |s.handlers| && s.handlers[h].Sent? {
        MoveKeeps(s, h, s.counters, Observing(secs, failed, 0));
      }
  }

  lemma {:induction false} RunKeeps(acts: seq<Action>, k: nat)
    requires k <= |acts|
    ensures Inv(After(acts, k))
  {
    hide Inv, Next;
    if k == 0 {
      InitialKeeps();
    } else {
      RunKeeps(acts, k - 1);
      NextKeeps(After(acts, k - 1), acts[k - 1]);
    }
  }

  lemma {:induction false} InitialKeeps()
    ensures Inv(INITIAL)
  {
  }

  // ----- what holds at every point

  lemma {:induction false} CountAtMost(hs: seq<Handler>, p: Query, q: Query, k: nat)
    requires k <= |hs|
    requires forall h :: 0 <= h < |hs| && Holds(p, hs[h]) ==> Holds(q, hs[h])
    ensures Count(hs, p, k) <= Count(hs, q, k) <= k
  {
    hide Holds;
    if k > 0 {
      CountAtMost(hs, p, q, k - 1);
    }
  }

  /** In every interleaving of handlers, cancelled ones among them, and at every point: no more
      errors than observations, no more observations than requests. */
  lemma {:induction false} CountersOrdered(acts: seq<Action>, k: nat)
    requires k <= |acts|
    ensures var c := After(acts, k).counters; c.errors <= c.count <= c.requests
  {
    hide After, Count;
    RunKeeps(acts, k);
    var hs := After(acts, k).handlers;
    CountAtMost(hs, Failures, Observed, |hs|);
  }

  lemma {:induction false} CountSplits(hs: seq<Handler>, k: nat)
    requires k <= |hs|
    ensures Count(hs, Observed, k) + Count(hs, InFlight, k) + Count(hs, Dropped, k) == k
  {
    if k > 0 {
      CountSplits(hs, k - 1);
    }
  }

  /** Every request is observed, in flight or cancelled. */
  lemma {:induction false} RequestsAccounted(acts: seq<Action>, k: nat)
    requires k <= |acts|
    ensures var s := After(acts, k); s.counters.requests == s.counters.count + All(s, InFlight) + All(s, Dropped)
  {
    hide After, Count;
    RunKeeps(acts, k);
    var hs := After(acts, k).handlers;
    CountSplits(hs, |hs|);
  }

  /** No observation is part done. */
  ghost predicate Quiet(s: State) {
    forall h :: 0 <= h < |s.handlers| && s.handlers[h].Observing? ==> s.handlers[h].next == 0
  }

  /** When none is, each bucket is the number of observations within its bound. */
  lemma {:induction false} BucketsExact(acts: seq<Action>, k: nat, b: nat)
    requires k <= |acts| && b < BUCKETS && Quiet(After(acts, k))
    ensures var s := After(acts, k);
            |s.counters.buckets| == BUCKETS && s.counters.buckets[b] == All(s, AtMost(b))
  {
    hide After, Count;
    RunKeeps(acts, k);
    var hs := After(acts, k).handlers;
    CountAtMost(hs, Bumped(b), AtMost(b), |hs|);
    CountAtMost(hs, AtMost(b), Bumped(b), |hs|);
  }

  lemma {:induction false} BoundsAscend(b: nat, d: nat)
    requires b <= d < BUCKETS
    ensures BOUNDS[b] <= BOUNDS[d]
  {
  }

  /** And the histogram is cumulative, up to the total count. */
  lemma {:induction false} BucketsCumulative(acts: seq<Action>, k: nat, b: nat, d: nat)
    requires k <= |acts| && b <= d < BUCKETS && Quiet(After(acts, k))
    ensures var c := After(acts, k).counters;
            |c.buckets| == BUCKETS && c.buckets[b] <= c.buckets[d] <= c.count
  {
    hide After, Count;
    BoundsAscend(b, d);
    RunKeeps(acts, k);
    BucketsExact(acts, k, b);
    BucketsExact(acts, k, d);
    var hs := After(acts, k).handlers;
    CountAtMost(hs, AtMost(b), AtMost(d), |hs|);
    CountAtMost(hs, AtMost(d), Observed, |hs|);
  }

  lemma {:induction false} CountsTrade(hs: seq<Handler>, b: nat, d: nat, k: nat)
    requires k <= |hs| && b <= d < BUCKETS
    ensures Count(hs, Bumped(b), k) + Count(hs, Between(b, d), k) == Count(hs, Bumped(d), k) + Count(hs, Midway(b, d), k)
    ensures Count(hs, Bumped(b), k) + Count(hs, Slower(b), k) == Count(hs, Observed, k) + Count(hs, Uncounted(b), k)
  {
    if k > 0 {
      CountsTrade(hs, b, d, k - 1);
      BoundsAscend(b, d);
      OnesTrade(hs[k - 1], b, d);
      hide Holds;
    }
  }

  lemma {:induction false} OnesTrade(x: Handler, b: nat, d: nat)
    requires b <= d < BUCKETS && BOUNDS[b] <= BOUNDS[d]
    ensures One(Bumped(b), x) + One(Between(b, d), x) == One(Bumped(d), x) + One(Midway(b, d), x)
    ensures One(Bumped(b), x) + One(Slower(b), x) == One(Observed, x) + One(Uncounted(b), x)
  {
  }

  /** In every reachable state, part-done observations or not: a bucket is at most a wider one if
      and only if no more handlers are midway from the one to the other than have latencies
      between the two; and at most the count if and only if no more are part done past it than
      were slower than its bound. */
  lemma {:induction false} CumulativeExactly(acts: seq<Action>, k: nat, b: nat, d: nat)
    requires k <= |acts| && b <= d < BUCKETS
    ensures var s := After(acts, k);
            && |s.counters.buckets| == BUCKETS
            && (s.counters.buckets[b] <= s.counters.buckets[d] <==> All(s, Midway(b, d)) <= All(s, Between(b, d)))
            && (s.counters.buckets[b] <= s.counters.count <==> All(s, Uncounted(b)) <= All(s, Slower(b)))
  {
    hide After, Count;
    RunKeeps(acts, k);
    var hs := After(acts, k).handlers;
    CountsTrade(hs, b, d, |hs|);
  }

  /** It need not be while one is part done. */
  lemma {:induction false} NotCumulativeMidway()
    ensures exists acts: seq<Action> ::
              var c := After(acts, |acts|).counters; |c.buckets| == BUCKETS && c.buckets[0] > c.count
  {
    var acts := [Start, Answer(0, 0.0, false), Go(0)];
    var s1 := After(acts, 1);
    assert s1.handlers == [Sent];
    var s2 := After(acts, 2);
    assert s2.handlers == [Observing(0.0, false, 0)] && s2.counters == s1.counters;
    var s3 := After(acts, 3);
    assert s3.counters.buckets[0] == 1 && s3.counters.count == 0;
    assert |acts| == 3;
  }

  // ----- what a scrape can rely on

  // A scrape reads the counters one after the other: requests, errors, each bucket, the count.
  // Handlers go on in between.

  lemma {:induction false} StepGrows(s: State, a: Action)
    requires |s.counters.buckets| == BUCKETS
    ensures var c, d := s.counters, Next(s, a).counters;
            && c.requests <= d.requests && c.errors <= d.errors && c.count <= d.count && |d.buckets| == BUCKETS
            && (forall b :: 0 <= b < BUCKETS ==> c.buckets[b] <= d.buckets[b])
            && |s.handlers| <= |Next(s, a).handlers|
  {
    hide Micros;
  }

  /** No counter ever falls. */
  lemma {:induction false} CountersGrow(acts: seq<Action>, i: nat, k: nat)
    requires i <= k <= |acts|
    ensures var c, d := After(acts, i).counters, After(acts, k).counters;
            && c.requests <= d.requests && c.errors <= d.errors && c.count <= d.count
            && |c.buckets| == |d.buckets| == BUCKETS
            && forall b :: 0 <= b < BUCKETS ==> c.buckets[b] <= d.buckets[b]
    decreases k
  {
    hide Next;
    RunKeeps(acts, i);
    RunKeeps(acts, k);
    if i < k {
      CountersGrow(acts, i, k - 1);
      StepGrows(After(acts, k - 1), acts[k - 1]);
    }
  }

  /** The errors read are at most the count read after them, on every run. */
  lemma {:induction false} ScrapedErrors(acts: seq<Action>, i: nat, k: nat)
    requires i <= k <= |acts|
    ensures After(acts, i).counters.errors <= After(acts, k).counters.count
  {
    hide After;
    CountersGrow(acts, i, k);
    CountersOrdered(acts, k);
  }

  /** A bucket read is at most a wider one read after it, and at most the count read after that, if
      no observation is part done when the later one is read. */
  lemma {:induction false} ScrapedBuckets(acts: seq<Action>, i: nat, k: nat, b: nat, d: nat)
    requires i <= k <= |acts| && b <= d < BUCKETS && Quiet(After(acts, k))
    ensures var early, late := After(acts, i).counters, After(acts, k).counters;
            && |early.buckets| == |late.buckets| == BUCKETS
            && early.buckets[b] <= late.buckets[d] && early.buckets[b] <= late.count
  {
    hide After, Quiet;
    CountersGrow(acts, i, k);
    BucketsCumulative(acts, k, b, d);
  }

  lemma {:induction false} HandlersGrow(acts: seq<Action>, i: nat, k: nat)
    requires i <= k <= |acts|
    ensures |After(acts, i).handlers| <= |After(acts, k).handlers|
  {
    hide After;
    CountersGrow(acts, i, k);
    RunKeeps(acts, i);
    RunKeeps(acts, k);
  }

  /** The observations of the requests numbered from `n` on. */
  function ObservedFrom(hs: seq<Handler>, n: nat): int
    requires n <= |hs|
  {
    Count(hs, Observed, |hs|) - Count(hs, Observed, n)
  }

  /** The requests read are read first, so the count read later can exceed them. It does not if and
      only if no more requests that came after that first read were observed by then than requests
      from before it were not. */
  lemma {:induction false} ScrapedCountExactly(acts: seq<Action>, i: nat, k: nat)
    requires i <= k <= |acts|
    ensures var n, hs := |After(acts, i).handlers|, After(acts, k).handlers;
            && n <= |hs|
            && (After(acts, k).counters.count <= After(acts, i).counters.requests
                <==> ObservedFrom(hs, n) <= n - Count(hs, Observed, n))
  {
    hide After, Count;
    HandlersGrow(acts, i, k);
    RunKeeps(acts, i);
    RunKeeps(acts, k);
  }

  /** One request from its start, through `n` steps of its observation. */
  function OneRequest(n: nat): (acts: seq<Action>)
    ensures |acts| == n + 2
    ensures acts[0] == Start && acts[1] == Answer(0, 20.0, false)
    ensures forall k :: 2 <= k < n + 2 ==> acts[k] == Go(0)
  {
    if n == 0 then [Start, Answer(0, 20.0, false)] else OneRequest(n - 1) + [Go(0)]
  }

  lemma {:induction false} OneRequestAt(n: nat, k: nat)
    requires k <= n && k <= BUCKETS
    ensures var s := After(OneRequest(n), k + 2);
            s.handlers == [Observing(20.0, false, k)] && s.counters.count == 0 && |s.counters.buckets| == BUCKETS
    decreases k
  {
    hide OneRequest;
    if k == 0 {
      assert After(OneRequest(n), 1).handlers == [Sent];
    } else {
      OneRequestAt(n, k - 1);
      assert OneRequest(n)[k + 1] == Go(0);
    }
  }

  /** A scrape that reads no request and one observation. */
  lemma {:induction false} ScrapedCountAhead()
    ensures exists acts: seq<Action>, i: nat, k: nat ::
              i <= k <= |acts| && After(acts, i).counters.requests < After(acts, k).counters.count
  {
    hide OneRequest;
    var acts := OneRequest(BUCKETS + 1);
    OneRequestAt(BUCKETS + 1, BUCKETS);
    var s := After(acts, BUCKETS + 2);
    assert acts[BUCKETS + 2] == Go(0);
    OneMore(acts, BUCKETS + 2);
    assert After(acts, 0).counters.requests == 0 < After(acts, BUCKETS + 3).counters.count;
  }

  lemma {:induction false} OneMore(acts: seq<Action>, k: nat)
    requires k < |acts| && acts[k] == Go(0)
    requires After(acts, k).handlers == [Observing(20.0, false, BUCKETS)]
    ensures After(acts, k + 1).counters.count == After(acts, k).counters.count + 1
  {
  }

  // ----- what the counters come to

  /** Action `i` is an upstream reply to a handler that waits for one. */
  predicate IsReply(acts: seq<Action>, i: nat)
    requires i < |acts|
  {
    acts[i].Answer? && acts[i].h < |After(acts, i).handlers| && After(acts, i).handlers[acts[i].h].Sent?
  }

  /** The replies of a kind among the first `k` actions. */
  function Replies(acts: seq<Action>, ask: Ask, k: nat): nat
    requires k <= |acts|
  {
    if k == 0 then 0
    else
      Replies(acts, ask, k - 1)
      + if IsReply(acts, k - 1) && Fits(ask, acts[k - 1].secs, acts[k - 1].failed) then 1 else 0
  }

  /** Their latencies together, in microseconds. */
  function ReplyMicros(acts: seq<Action>, k: nat): int
    requires k <= |acts|
  {
    if k == 0 then 0
    else ReplyMicros(acts, k - 1) + if IsReply(acts, k - 1) then Micros(acts[k - 1].secs) else 0
  }

  function Starts(acts: seq<Action>, k: nat): nat
    requires k <= |acts|
  {
    if k == 0 then 0 else Starts(acts, k - 1) + if acts[k - 1].Start? then 1 else 0
  }

  /** A step of an observation keeps the reply it observes. */
  lemma {:induction false} GoKeepsReply(c: Counters, x: Handler, ask: Ask)
    ensures One(Replied(ask), GoOn(c, x).1) == One(Replied(ask), x)
    ensures Known(GoOn(c, x).1) == Known(x)
  {
    hide Fits, Micros;
  }

  /** The latency of a handler whose upstream has replied. */
  function Known(x: Handler): int {
    if x.Sent? || x.Cancelled? then 0 else Micros(x.secs)
  }

  function KnownMicros(hs: seq<Handler>, k: nat): int
    requires k <= |hs|
  {
    if k == 0 then 0 else KnownMicros(hs, k - 1) + Known(hs[k - 1])
  }

  lemma {:induction false} KnownUpdate(hs: seq<Handler>, h: nat, x: Handler, k: nat)
    requires h < |hs| && k <= |hs|
    ensures KnownMicros(hs[h := x], k) == KnownMicros(hs, k) + (if h < k then Known(x) - Known(hs[h]) else 0)
  {
    hide Known;
    if k > 0 {
      KnownUpdate(hs, h, x, k - 1);
    }
  }

  lemma {:induction false} KnownPrefix(hs: seq<Handler>, x: Handler, k: nat)
    requires k <= |hs|
    ensures KnownMicros(hs + [x], k) == KnownMicros(hs, k)
  {
    hide Known;
    if k > 0 {
      KnownPrefix(hs, x, k - 1);
    }
  }

  predicate Takes(s: State, a: Action) {
    a.Answer? && a.h < |s.handlers| && s.handlers[a.h].Sent?
  }

  lemma {:induction false} StepReplies(s: State, a: Action, ask: Ask)
    ensures All(Next(s, a), Replied(ask)) == All(s, Replied(ask)) + if Takes(s, a) && Fits(ask, a.secs, a.failed) then 1 else 0
  {
    hide All, GoOn, Fits;
    match a
    case Start => AllStart(s, s.counters.(requests := s.counters.requests + 1), Replied(ask));
    case Cancel(h) =>
      if h < |s.handlers| {
        AllUpdate(s, s.counters, h, Cancelled, Replied(ask));
      }
    case Answer(h, secs, failed) =>
      if h < |s.handlers| {
        AllUpdate(s, s.counters, h, Observing(secs, failed, 0), Replied(ask));
      }
    case Go(h) =>
      if h < |s.handlers| {
        var (c, x) := GoOn(s.counters, s.handlers[h]);
        GoKeepsReply(s.counters, s.handlers[h], ask);
        AllUpdate(s, c, h, x, Replied(ask));
      }
  }

  lemma {:induction false} StepMicros(s: State, a: Action)
    ensures var hs := Next(s, a).handlers;
            KnownMicros(hs, |hs|) == KnownMicros(s.handlers, |s.handlers|) + if Takes(s, a) then Micros(a.secs) else 0
  {
    hide KnownMicros, GoOn, Micros;
    var hs := s.handlers;
    match a
    case Start =>
      KnownPrefix(hs, Sent, |hs|);
      KnownLast(hs, Sent);
    case Cancel(h) =>
      if h < |hs| {
        KnownUpdate(hs, h, Cancelled, |hs|);
      }
    case Answer(h, secs, failed) =>
      if h < |hs| {
        KnownUpdate(hs, h, Observing(secs, failed, 0), |hs|);
      }
    case Go(h) =>
      if h < |hs| {
        GoKeepsReply(s.counters, hs[h], AnyReply);
        KnownUpdate(hs, h, GoOn(s.counters, hs[h]).1, |hs|);
      }
  }

  lemma {:induction false} KnownLast(hs: seq<Handler>, x: Handler)
    ensures KnownMicros(hs + [x], |hs| + 1) == KnownMicros(hs + [x], |hs|) + Known(x)
  {
  }

  lemma {:induction false} RepliesHeld(acts: seq<Action>, ask: Ask, k: nat)
    requires k <= |acts|
    ensures Replies(acts, ask, k) == All(After(acts, k), Replied(ask))
    ensures var hs := After(acts, k).handlers; ReplyMicros(acts, k) == KnownMicros(hs, |hs|)
  {
    if k > 0 {
      hide Next, All, KnownMicros, Fits, Micros;
      RepliesHeld(acts, ask, k - 1);
      StepReplies(After(acts, k - 1), acts[k - 1], ask);
      StepMicros(After(acts, k - 1), acts[k - 1]);
    }
  }

  lemma {:induction false} StartsHeld(acts: seq<Action>, k: nat)
    requires k <= |acts|
    ensures After(acts, k).counters.requests == Starts(acts, k)
  {
    if k > 0 {
      hide Micros;
      StartsHeld(acts, k - 1);
    }
  }

  /** Every handler whose upstream has replied has done its counting. */
  ghost predicate Finished(s: State) {
    forall h :: 0 <= h < |s.handlers| ==>
      var x := s.handlers[h]; !x.Observing? && !x.Counted? && !(x.Summed? && x.failed)
  }

  lemma {:induction false} SumsAgree(hs: seq<Handler>, k: nat)
    requires k <= |hs|
    requires forall h :: 0 <= h < |hs| ==> !hs[h].Observing? && !hs[h].Counted?
    ensures SumOf(hs, k) == KnownMicros(hs, k)
  {
    hide Micros;
    if k > 0 {
      SumsAgree(hs, k - 1);
    }
  }

  lemma {:induction false} CountsAgree(hs: seq<Handler>, p: Query, q: Query)
    requires forall h :: 0 <= h < |hs| ==> (Holds(p, hs[h]) <==> Holds(q, hs[h]))
    ensures Count(hs, p, |hs|) == Count(hs, q, |hs|)
  {
    hide Holds;
    CountAtMost(hs, p, q, |hs|);
    CountAtMost(hs, q, p, |hs|);
  }

  /** When no handler is still counting, the counters are what has happened: every request sent, every
      reply, every failed reply, every reply within each bound, and the latencies together. */
  lemma {:induction false} FinishedTotals(acts: seq<Action>, k: nat)
    requires k <= |acts| && Finished(After(acts, k))
    ensures var c := After(acts, k).counters;
            && c.requests == Starts(acts, k)
            && c.count == Replies(acts, AnyReply, k)
            && c.errors == Replies(acts, FailedReply, k)
            && c.sumMicros == ReplyMicros(acts, k)
            && |c.buckets| == BUCKETS && forall b :: 0 <= b < BUCKETS ==> c.buckets[b] == Replies(acts, Within(b), k)
  {
    hide After, Count, SumOf, KnownMicros, Replies, ReplyMicros, Starts;
    RunKeeps(acts, k);
    StartsHeld(acts, k);
    var hs := After(acts, k).handlers;
    RepliesHeld(acts, AnyReply, k);
    CountsAgree(hs, Observed, Replied(AnyReply));
    RepliesHeld(acts, FailedReply, k);
    CountsAgree(hs, Failures, Replied(FailedReply));
    SumsAgree(hs, |hs|);
    forall b | 0 <= b < BUCKETS
      ensures After(acts, k).counters.buckets[b] == Replies(acts, Within(b), k)
    {
      RepliesHeld(acts, Within(b), k);
      CountsAgree(hs, Bumped(b), Replied(Within(b)));
    }
  }

  /** The handlers dropped while they waited. */
  function Cancels(acts: seq<Action>, k: nat): nat
    requires k <= |acts|
  {
    if k == 0 then 0
    else
      var s, a := After(acts, k - 1), acts[k - 1];
      Cancels(acts, k - 1)
      + if a.Cancel? && a.h < |s.handlers| && s.handlers[a.h].Sent? then 1 else 0
  }

  lemma {:induction false} StepCancels(s: State, a: Action)
    ensures All(Next(s, a), Dropped)
            == All(s, Dropped) + if a.Cancel? && a.h < |s.handlers| && s.handlers[a.h].Sent? then 1 else 0
  {
    hide All, Micros;
    match a
    case Start => AllStart(s, s.counters.(requests := s.counters.requests + 1), Dropped);
    case Cancel(h) =>
      if h < |s.handlers| {
        AllUpdate(s, s.counters, h, Cancelled, Dropped);
      }
    case Answer(h, secs, failed) =>
      if h < |s.handlers| {
        AllUpdate(s, s.counters, h, Observing(secs, failed, 0), Dropped);
      }
    case Go(h) =>
      if h < |s.handlers| {
        var (c, x) := GoOn(s.counters, s.handlers[h]);
        AllUpdate(s, c, h, x, Dropped);
      }
  }

  /** Only a handler that waits can be dropped, and it is then never observed. */
  lemma {:induction false} CancelsHeld(acts: seq<Action>, k: nat)
    requires k <= |acts|
    ensures All(After(acts, k), Dropped) == Cancels(acts, k)
  {
    if k > 0 {
      hide Next, All;
      CancelsHeld(acts, k - 1);
      StepCancels(After(acts, k - 1), acts[k - 1]);
    }
  }
}
