/** The two discovery providers: the Kubernetes watch loop and the Docker poll loop
    (src/discovery/k8s.rs, src/discovery/docker.rs). */
module Providers {
  import opened Prelude
  import opened Ordered
  import opened Routes
  import opened Watch

  datatype Kind = Service | Ingress

  /** The routes of both kinds: services by key, then ingresses by key. */
  function Snapshot(svc: RouteMap, ing: RouteMap): seq<Route> {
    Values(svc) + Values(ing)
  }

  /** The watch loop: its stores, what it sent last, and a snapshot it is about to send. */
  datatype Watcher = Watcher(svc: Store, ing: Store, lastSent: Option<seq<Route>>, pending: Option<seq<Route>>)

  const NEW_WATCHER := Watcher(EMPTY_STORE, EMPTY_STORE, None, None)

  function OnOp(w: Watcher, kind: Kind, op: Op): Watcher {
    var svc := if kind.Service? then Step(w.svc, op) else w.svc;
    var ing := if kind.Ingress? then Step(w.ing, op) else w.ing;
    var changed := svc.committed != w.svc.committed || ing.committed != w.ing.committed;
    var routes := Snapshot(svc.committed, ing.committed);
    Watcher(svc, ing, w.lastSent, if changed && w.lastSent != Some(routes) then Some(routes) else None)
  }

  /** The send went through. */
  function Sent(w: Watcher): Watcher
    requires w.pending.Some?
  {
    w.(lastSent := w.pending, pending := None)
  }

  /** What was sent last is the current snapshot, or nothing was sent and there is nothing. */
  predicate UpToDate(w: Watcher) {
    || w.lastSent == Some(Snapshot(w.svc.committed, w.ing.committed))
    || (w.lastSent.None? && w.svc.committed == map[] && w.ing.committed == map[])
  }

  /** The invariant of the loop. */
  predicate Tracks(w: Watcher) {
    if w.pending.Some? then w.pending.value == Snapshot(w.svc.committed, w.ing.committed) else UpToDate(w)
  }

  lemma {:induction false} OnOpTracks(w: Watcher, kind: Kind, op: Op)
    requires Tracks(w) && w.pending.None?
    ensures Tracks(OnOp(w, kind, op))
  {
    hide Step, Snapshot;
  }

  /** One item of the merged stream: an operation of a kind, or a watch error. */
  datatype Item = Happened(kind: Kind, op: Op) | WatchError

  /** The loop after the first `k` items, every send having gone through at once. */
  function WatcherAfter(items: seq<Item>, k: nat): Watcher
    requires k <= |items|
  {
    if k == 0 then NEW_WATCHER
    else
      var w := WatcherAfter(items, k - 1);
      if items[k - 1].WatchError? then w
      else
        var next := OnOp(w, items[k - 1].kind, items[k - 1].op);
        if next.pending.Some? then Sent(next) else next
  }

  /** The snapshots sent. */
  function SentBy(items: seq<Item>, k: nat): seq<seq<Route>>
    requires k <= |items|
  {
    if k == 0 then []
    else
      var w := WatcherAfter(items, k - 1);
      var sent := SentBy(items, k - 1);
      if items[k - 1].WatchError? then sent
      else
        var next := OnOp(w, items[k - 1].kind, items[k - 1].op);
        if next.pending.Some? then sent + [next.pending.value] else sent
  }

  /** The watch loop over two stores that it updates in place. */
  method RunWatcher(items: seq<Item>) returns (sent: seq<seq<Route>>)
    ensures sent == SentBy(items, |items|)
    ensures UpToDate(WatcherAfter(items, |items|))
  {
    hide Step, Snapshot;
    var svcStore := new KindStore();
    var ingStore := new KindStore();
    var lastSent: Option<seq<Route>> := None;
    sent := [];
    for i := 0 to |items|
      invariant svcStore != ingStore
      invariant WatcherAfter(items, i) == Watcher(svcStore.State(), ingStore.State(), lastSent, None)
      invariant sent == SentBy(items, i)
      invariant Tracks(WatcherAfter(items, i))
    {
      ghost var w := WatcherAfter(items, i);
      if items[i].Happened? {
        OnOpTracks(w, items[i].kind, items[i].op);
        var changed;
        if items[i].kind.Service? {
          changed := svcStore.Apply(items[i].op);
        } else {
          changed := ingStore.Apply(items[i].op);
        }
        if changed {
          var routes := Snapshot(svcStore.committed, ingStore.committed);
          if lastSent != Some(routes) {
            sent := sent + [routes];
            lastSent := Some(routes);
          }
        }
      }
    }
  }

  /** The watch loop never sends the same snapshot twice in a row. */
  lemma {:induction false} WatcherSendsChanges(items: seq<Item>, k: nat)
    requires k <= |items|
    ensures var sent := SentBy(items, k);
            && WatcherAfter(items, k).lastSent == (if sent == [] then None else Some(sent[|sent| - 1]))
            && forall a :: 0 < a < |sent| ==> sent[a] != sent[a - 1]
  {
    hide Step, Snapshot;
    if k > 0 {
      WatcherSendsChanges(items, k - 1);
    }
  }

  // ----- what a snapshot holds

  /** `rs` lists the routes of a store, one for each object. */
  ghost predicate ListsRoutes(rs: seq<Route>, m: RouteMap) {
    && |rs| == |m|
    && (forall k :: k in m ==> m[k] in rs)
    && (forall r :: r in rs ==> exists k :: k in m && m[k] == r)
  }

  lemma {:induction false} ValuesList(m: RouteMap)
    ensures ListsRoutes(Values(m), m)
  {
    hide Ascending;
    var ks := Ascending(m.Keys);
    forall k | k in m
      ensures m[k] in Values(m)
    {
      assert k in ks;
      var i :| 0 <= i < |ks| && ks[i] == k;
      assert Values(m)[i] == m[k];
    }
    forall r | r in Values(m)
      ensures exists k :: k in m && m[k] == r
    {
      var i :| 0 <= i < |Values(m)| && Values(m)[i] == r;
      assert ks[i] in ks;
    }
  }

  // ----- Docker

  /** The poller between two steps: what it sent last, and what it is about to send. */
  datatype DockerSide = DockerSide(last: Option<seq<Route>>, pending: Option<seq<Route>>)

  /** A poll succeeded: its routes are sent if they are not those sent last. */
  function OnPoll(d: DockerSide, routes: seq<Route>): DockerSide {
    d.(pending := if d.last == Some(routes) then None else Some(routes))
  }

  function PollSent(d: DockerSide): DockerSide {
    DockerSide(d.pending, None)
  }

  /** One turn of the poll loop: whether a reconnect, if needed, works, and the poll's routes. */
  datatype PollTurn = PollTurn(connects: bool, poll: Option<seq<Route>>)

  /** The poll loop: whether it holds a client, what it sent last, and what it sent in all. */
  datatype Poller = Poller(connected: bool, last: Option<seq<Route>>, sent: seq<seq<Route>>)

  function OnTurn(p: Poller, t: PollTurn): Poller {
    if !p.connected && !t.connects then p
    else if t.poll.None? then p.(connected := false)
    else
      var d := OnPoll(DockerSide(p.last, None), t.poll.value);
      if d.pending.None? then p.(connected := true)
      else Poller(true, PollSent(d).last, p.sent + [d.pending.value])
  }

  function PollerAfter(turns: seq<PollTurn>, k: nat): Poller
    requires k <= |turns|
  {
    if k == 0 then Poller(false, None, []) else OnTurn(PollerAfter(turns, k - 1), turns[k - 1])
  }

  /** The poll loop, run for as many turns as there are. */
  method RunPoller(turns: seq<PollTurn>) returns (sent: seq<seq<Route>>)
    ensures sent == PollerAfter(turns, |turns|).sent
  {
    var docker := false;
    var last: Option<seq<Route>> := None;
    sent := [];
    for i := 0 to |turns|
      invariant PollerAfter(turns, i) == Poller(docker, last, sent)
    {
      if !docker {
        if !turns[i].connects {
          continue;
        }
        docker := true;
      }
      match turns[i].poll {
        case Some(routes) =>
          if last != Some(routes) {
            sent := sent + [routes];
            last := Some(routes);
          }
        case None => docker := false;
      }
    }
  }

  /** A poll that was carried out and succeeded. */
  predicate Polled(turns: seq<PollTurn>, i: nat)
    requires i < |turns|
  {
    (PollerAfter(turns, i).connected || turns[i].connects) && turns[i].poll.Some?
  }

  /** The loop holds a connection if and only if it connected in some turn and every poll since has
      succeeded. */
  lemma {:induction false} ConnectedExactly(turns: seq<PollTurn>, k: nat)
    requires k <= |turns|
    ensures PollerAfter(turns, k).connected
            <==> exists j :: 0 <= j < k && turns[j].connects && forall i :: j <= i < k ==> turns[i].poll.Some?
  {
    if k > 0 {
      ConnectedExactly(turns, k - 1);
      var p := PollerAfter(turns, k - 1);
      if p.connected && turns[k - 1].poll.Some? {
        var j :| 0 <= j < k - 1 && turns[j].connects && forall i :: j <= i < k - 1 ==> turns[i].poll.Some?;
        assert forall i :: j <= i < k ==> turns[i].poll.Some?;
      } else if turns[k - 1].connects && turns[k - 1].poll.Some? {
        assert forall i :: k - 1 <= i < k ==> turns[i].poll.Some?;
      }
      if !p.connected && !turns[k - 1].connects {
        forall j | 0 <= j < k && turns[j].connects
          ensures !(forall i :: j <= i < k ==> turns[i].poll.Some?)
        {
          assert !(forall i :: j <= i < k - 1 ==> turns[i].poll.Some?);
        }
      }
    }
  }

  /** The routes of the newest successful poll among the first `k` turns. */
  function Newest(turns: seq<PollTurn>, k: nat): Option<seq<Route>>
    requires k <= |turns|
  {
    if k == 0 then None else if Polled(turns, k - 1) then turns[k - 1].poll else Newest(turns, k - 1)
  }

  /** The loop never sends the same set twice in a row. */
  predicate NoRepeats(p: Poller) {
    && p.last == (if p.sent == [] then None else Some(p.sent[|p.sent| - 1]))
    && forall a :: 0 < a < |p.sent| ==> p.sent[a] != p.sent[a - 1]
  }

  /** What the loop sent last is always the newest successful poll, across any number of failed
      polls and reconnects. */
  lemma {:induction false} PollerSendsChanges(turns: seq<PollTurn>, k: nat)
    requires k <= |turns|
    ensures NoRepeats(PollerAfter(turns, k))
    ensures PollerAfter(turns, k).last == Newest(turns, k)
  {
    if k > 0 {
      PollerSendsChanges(turns, k - 1);
    }
  }
}
